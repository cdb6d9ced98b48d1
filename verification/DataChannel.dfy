/** Data channels: the framing, what a channel manager does with each message,
    and two managers joined by two links that neither lose nor reorder. */
module DataChannels {
  import opened Bytes
  import opened Collections

  const MAX_CHANNELS: int := 16
  const MAX_LABEL: int := 128
  const MAX_MSG: int := 65535

  datatype Kind = Open | Ack | Data | Close

  datatype Message = Message(id: int, kind: Kind, payload: seq<int>)

  // ----- framing -----

  function Code(kind: Kind): int
  {
    match kind case Open => 1 case Ack => 2 case Data => 3 case Close => 4
  }

  function KindOf(code: int): Option<Kind>
  {
    if code == 1 then Some(Open) else if code == 2 then Some(Ack)
    else if code == 3 then Some(Data) else if code == 4 then Some(Close) else None
  }

  predicate Sendable(m: Message)
  {
    0 <= m.id < 0x1_0000 && |m.payload| <= MAX_MSG && AreBytes(m.payload)
  }

  /** `dc_send_message` */
  function Encode(m: Message): (r: seq<int>)
    requires Sendable(m)
    ensures AreBytes(r)
  {
    U16(m.id) + [Code(m.kind), 0] + U16(|m.payload|) + m.payload
  }

  /** The header checks of `rtc_dc_manager_recv`; bytes after the payload are ignored. */
  function Decode(frame: seq<int>): Option<Message>
    requires AreBytes(frame)
  {
    if |frame| < 6 || 6 + Read16(frame, 4) > |frame| || KindOf(frame[2]).None? then None
    else Some(Message(Read16(frame, 0), KindOf(frame[2]).value, frame[6..6 + Read16(frame, 4)]))
  }

  /** Where the fields of a frame are: a six-byte header with the id, the type (1 to
      4), a reserved zero and the length, then the payload. */
  lemma FrameLayout(m: Message)
    requires Sendable(m)
    ensures var f := Encode(m);
            && |f| == 6 + |m.payload| && Read16(f, 0) == m.id && f[3] == 0 && Read16(f, 4) == |m.payload|
            && f[6..] == m.payload
            && (f[2] == 1 <==> m.kind == Open) && (f[2] == 2 <==> m.kind == Ack)
            && (f[2] == 3 <==> m.kind == Data) && (f[2] == 4 <==> m.kind == Close)
  {
    var f := Encode(m);
    assert f[0] == m.id / 256 && f[1] == m.id % 256 && f[2] == Code(m.kind);
    assert f[4] == |m.payload| / 256 && f[5] == |m.payload| % 256;
  }

  lemma Framed(m: Message)
    requires Sendable(m)
    ensures Decode(Encode(m)) == Some(m)
  {
    var f := Encode(m);
    assert f[0] == m.id / 256 && f[1] == m.id % 256 && f[2] == Code(m.kind);
    assert f[4] == |m.payload| / 256 && f[5] == |m.payload| % 256;
    assert f[6..] == m.payload;
    assert f[6..6 + |m.payload|] == f[6..];
  }

  // ----- a manager -----

  datatype Status = Connecting | Opened | Closed

  /** A channel, with the payloads it has sent and those it has handed to the
      application beside the byte counters. */
  datatype Channel = Channel(
    name: seq<int>, status: Status, local: bool,
    sent: seq<seq<int>>, received: seq<seq<int>>, bytesSent: int, bytesReceived: int)

  datatype Manager = Manager(channels: map<int, Channel>, nextId: int, connected: bool)

  /** What an operation leaves and what it sends. */
  datatype Outcome = Outcome(mgr: Manager, out: seq<Message>)

  function Put(mgr: Manager, id: int, ch: Channel): Manager
  {
    mgr.(channels := mgr.channels[id := ch])
  }

  function Label(text: seq<int>): (r: seq<int>)
    ensures |r| < MAX_LABEL && (AreBytes(text) ==> AreBytes(r))
    ensures r <= text && (r == text || |r| == MAX_LABEL - 1)
  {
    if |text| >= MAX_LABEL then text[..MAX_LABEL - 1] else text
  }

  /** The id a channel gets: the one asked for, otherwise the next even one. */
  function ChannelId(mgr: Manager, asked: Option<int>): (id: int)
    ensures 0 <= id < 0x1_0000
    ensures asked.Some? && 0 <= asked.value < 0x1_0000 ==> id == asked.value
    ensures asked.None? || asked.value < 0 ==> id == mgr.nextId % 0x1_0000
  {
    if asked.Some? && asked.value >= 0 then asked.value % 0x1_0000 else mgr.nextId % 0x1_0000
  }

  /** `rtc_dc_manager_create_channel` */
  function Create(mgr: Manager, asked: Option<int>, text: seq<int>, memory: bool): Outcome
  {
    if |mgr.channels| >= MAX_CHANNELS then Outcome(mgr, [])
    else
      var id := ChannelId(mgr, asked);
      var mgr1 := if asked.Some? && asked.value >= 0 then mgr else mgr.(nextId := mgr.nextId + 2);
      if !memory then Outcome(mgr1, [])
      else
        Outcome(Put(mgr1, id, Channel(Label(text), Connecting, true, [], [], 0, 0)),
                if mgr.connected then [Message(id, Open, Label(text))] else [])
  }

  /** `rtc_dc_manager_on_dtls_connected`, meeting the channels in the given order. */
  function Openings(mgr: Manager, order: seq<int>): (r: seq<Message>)
    ensures forall i | 0 <= i < |r| ::
      r[i].id in mgr.channels && mgr.channels[r[i].id].status == Connecting
      && r[i] == Message(r[i].id, Open, mgr.channels[r[i].id].name)
  {
    if order == [] then []
    else
      var id, rest := order[0], Openings(mgr, order[1..]);
      if id in mgr.channels && mgr.channels[id].local && mgr.channels[id].status == Connecting
      then [Message(id, Open, mgr.channels[id].name)] + rest
      else rest
  }

  function Connect(mgr: Manager, order: seq<int>): Outcome
  {
    Outcome(mgr.(connected := true), Openings(mgr, order))
  }

  /** `rtc_data_channel_send` on a channel of this manager */
  function Send(mgr: Manager, id: int, payload: seq<int>): Outcome
  {
    if id !in mgr.channels || mgr.channels[id].status != Opened || |payload| > MAX_MSG then Outcome(mgr, [])
    else
      var ch := mgr.channels[id];
      Outcome(Put(mgr, id, ch.(sent := ch.sent + [payload], bytesSent := ch.bytesSent + |payload|)),
              [Message(id, Data, payload)])
  }

  /** `rtc_data_channel_close` */
  function Shut(mgr: Manager, id: int): Outcome
  {
    if id !in mgr.channels || mgr.channels[id].status == Closed then Outcome(mgr, [])
    else
      var ch := mgr.channels[id];
      Outcome(Put(mgr, id, ch.(status := Closed)), if ch.status == Opened then [Message(id, Close, [])] else [])
  }

  /** The message part of `rtc_dc_manager_recv` */
  function Handle(mgr: Manager, m: Message, memory: bool): Outcome
  {
    var known := m.id in mgr.channels;
    match m.kind
    case Open =>
      if known then Outcome(Put(mgr, m.id, mgr.channels[m.id].(status := Opened)), [Message(m.id, Ack, [])])
      else if |mgr.channels| >= MAX_CHANNELS || !memory then Outcome(mgr, [])
      else Outcome(Put(mgr, m.id, Channel(Label(m.payload), Opened, false, [], [], 0, 0)), [Message(m.id, Ack, [])])
    case Ack =>
      if known && mgr.channels[m.id].status == Connecting
      then Outcome(Put(mgr, m.id, mgr.channels[m.id].(status := Opened)), []) else Outcome(mgr, [])
    case Data =>
      if known && mgr.channels[m.id].status == Opened
      then
        var ch := mgr.channels[m.id];
        var received := ch.(received := ch.received + [m.payload], bytesReceived := ch.bytesReceived + |m.payload|);
        Outcome(Put(mgr, m.id, received), [])
      else Outcome(mgr, [])
    case Close =>
      if known then Outcome(Put(mgr, m.id, mgr.channels[m.id].(status := Closed)), []) else Outcome(mgr, [])
  }

  /** `rtc_dc_manager_recv` */
  function Receive(mgr: Manager, frame: seq<int>, memory: bool): Outcome
    requires AreBytes(frame)
  {
    var m := Decode(frame);
    if m.None? then Outcome(mgr, []) else Handle(mgr, m.value, memory)
  }

  // ----- two managers -----

  /** Two managers, the frames under way between them, and the ids that were closed
      or created again in a way that cannot work. */
  datatype World = World(a: Manager, b: Manager, ab: seq<seq<int>>, ba: seq<seq<int>>, broken: set<int>)

  datatype Action =
    | DoCreate(asked: Option<int>, text: seq<int>, memory: bool)
    | DoConnect(order: seq<int>)
    | DoSend(id: int, payload: seq<int>)
    | DoShut(id: int)
    | DoReceive(memory: bool)

  ghost predicate Frames(link: seq<seq<int>>)
  {
    forall i | 0 <= i < |link| :: AreBytes(link[i])
  }

  ghost predicate AllSendable(out: seq<Message>)
  {
    forall i | 0 <= i < |out| :: Sendable(out[i])
  }

  function EncodeAll(out: seq<Message>): (r: seq<seq<int>>)
    requires AllSendable(out)
    ensures |r| == |out| && Frames(r)
  {
    if out == [] then [] else [Encode(out[0])] + EncodeAll(out[1..])
  }

  /** What an action does to the manager it is done on; data arrives from the
      front of the incoming link. */
  function Act(mgr: Manager, incoming: seq<seq<int>>, act: Action): Outcome
    requires Frames(incoming) && (act.DoReceive? ==> incoming != [])
  {
    match act
    case DoCreate(asked, text, memory) => Create(mgr, asked, text, memory)
    case DoConnect(order) => Connect(mgr, order)
    case DoSend(id, payload) => Send(mgr, id, payload)
    case DoShut(id) => Shut(mgr, id)
    case DoReceive(memory) => Receive(mgr, incoming[0], memory)
  }

  function Rest(incoming: seq<seq<int>>, act: Action): (r: seq<seq<int>>)
    requires Frames(incoming) && (act.DoReceive? ==> incoming != [])
    ensures Frames(r)
  {
    if act.DoReceive? then incoming[1..] else incoming
  }

  /** There is something to receive, and bytes are bytes. */
  ghost predicate Possible(mgr: Manager, incoming: seq<seq<int>>, act: Action)
  {
    && Frames(incoming) && (act.DoReceive? ==> incoming != [])
    && (act.DoCreate? ==> AreBytes(act.text))
    && (act.DoSend? ==> AreBytes(act.payload) && 0 <= act.id < 0x1_0000)
  }

  // ----- one channel id -----

  function Get(mgr: Manager, id: int): Option<Channel>
  {
    if id in mgr.channels then Some(mgr.channels[id]) else None
  }

  /** The messages for a channel id under way on a link. */
  function Flow(link: seq<seq<int>>, id: int): seq<Message>
    requires Frames(link)
  {
    if link == [] then []
    else
      var m := Decode(link[0]);
      if m.Some? && m.value.id == id then [m.value] + Flow(link[1..], id) else Flow(link[1..], id)
  }

  function Only(out: seq<Message>, id: int): seq<Message>
  {
    if out == [] then [] else if out[0].id == id then [out[0]] + Only(out[1..], id) else Only(out[1..], id)
  }

  lemma {:induction false} FlowAppend(link: seq<seq<int>>, out: seq<Message>, id: int)
    requires Frames(link) && AllSendable(out)
    ensures Frames(link + EncodeAll(out))
    ensures Flow(link + EncodeAll(out), id) == Flow(link, id) + Only(out, id)
  {
    if link == [] {
      assert link + EncodeAll(out) == EncodeAll(out);
      FlowOf(out, id);
    } else {
      FlowAppend(link[1..], out, id);
      assert (link + EncodeAll(out))[1..] == link[1..] + EncodeAll(out);
    }
  }

  lemma {:induction false} FlowOf(out: seq<Message>, id: int)
    requires AllSendable(out)
    ensures Flow(EncodeAll(out), id) == Only(out, id)
  {
    if out != [] {
      Framed(out[0]);
      FlowOf(out[1..], id);
      assert EncodeAll(out)[1..] == EncodeAll(out[1..]);
    }
  }

  function Payloads(q: seq<Message>): seq<seq<int>>
  {
    if q == [] then [] else if q[0].kind == Data then [q[0].payload] + Payloads(q[1..]) else Payloads(q[1..])
  }

  predicate Opener(m: Message)
  {
    m.kind == Open || m.kind == Ack
  }

  ghost predicate HasOpener(q: seq<Message>)
  {
    exists i :: 0 <= i < |q| && Opener(q[i])
  }

  /** No data before the first message that opens the channel. */
  ghost predicate Guarded(q: seq<Message>)
  {
    q == [] || Opener(q[0]) || (q[0].kind != Data && Guarded(q[1..]))
  }

  ghost predicate IsOpen(ch: Option<Channel>)
  {
    ch.Some? && ch.value.status == Opened
  }

  /** What holds for an id that nobody has closed, of the end x, the other end
      y and the messages q under way from x to y: when x may send data, a message
      that opens y has arrived or is ahead of the data. */
  ghost predicate Ordered(x: Option<Channel>, y: Option<Channel>, q: seq<Message>)
  {
    && (x.Some? ==> x.value.status != Closed && |x.value.name| < MAX_LABEL)
    && (IsOpen(x) ==> y.Some? && (IsOpen(y) || HasOpener(q)))
    && (IsOpen(y) || Guarded(q))
    && (forall i | 0 <= i < |q| :: Justified(x, q[i]))
    && (y.Some? && !y.value.local ==> x.Some? && x.value.name == y.value.name)
  }

  /** x is in a state in which it can have sent m. */
  ghost predicate Justified(x: Option<Channel>, m: Message)
  {
    match m.kind
    case Open => x.Some? && m.payload == x.value.name
    case Ack => IsOpen(x)
    case Data => IsOpen(x)
    case Close => false
  }

  /** Everything x has sent is received by y or under way, in order. */
  ghost predicate Conserved(x: Option<Channel>, y: Option<Channel>, q: seq<Message>)
  {
    && Sent(x) == Received(y) + Payloads(q)
    && (x.Some? ==> x.value.bytesSent == Total(x.value.sent) && x.value.bytesReceived == Total(x.value.received))
  }

  function Sent(x: Option<Channel>): seq<seq<int>>
  {
    if x.None? then [] else x.value.sent
  }

  function Received(x: Option<Channel>): seq<seq<int>>
  {
    if x.None? then [] else x.value.received
  }

  function Total(payloads: seq<seq<int>>): int
  {
    if payloads == [] then 0 else Total(payloads[..|payloads| - 1]) + |payloads[|payloads| - 1]|
  }

  // ----- how messages under way add up -----

  ghost predicate NoData(q: seq<Message>)
  {
    forall i | 0 <= i < |q| :: q[i].kind != Data
  }

  lemma {:induction false} PayloadsAppend(q: seq<Message>, out: seq<Message>)
    ensures Payloads(q + out) == Payloads(q) + Payloads(out)
  {
    if q == [] {
      assert q + out == out;
    } else {
      assert (q + out)[1..] == q[1..] + out;
      PayloadsAppend(q[1..], out);
    }
  }

  lemma {:induction false} NoPayloads(q: seq<Message>)
    requires NoData(q)
    ensures Payloads(q) == [] && Guarded(q)
  {
    if q != [] {
      NoPayloads(q[1..]);
    }
  }

  lemma {:induction false} GuardedAppend(q: seq<Message>, out: seq<Message>)
    requires Guarded(q) && (HasOpener(q) || Guarded(out))
    ensures Guarded(q + out)
  {
    if q == [] {
      assert q + out == out;
    } else if !Opener(q[0]) {
      assert (q + out)[1..] == q[1..] + out;
      if HasOpener(q) {
        var i :| 0 <= i < |q| && Opener(q[i]);
        assert Opener(q[1..][i - 1]);
      }
      GuardedAppend(q[1..], out);
    }
  }

  lemma TotalAppend(payloads: seq<seq<int>>, p: seq<int>)
    ensures Total(payloads + [p]) == Total(payloads) + |p|
  {
    assert (payloads + [p])[..|payloads|] == payloads;
  }

  lemma GuardedQ(q: seq<Message>, out: seq<Message>, y: Option<Channel>)
    requires IsOpen(y) || Guarded(q)
    requires IsOpen(y) || HasOpener(q) || Guarded(out)
    ensures IsOpen(y) || Guarded(q + out)
    ensures HasOpener(q) || HasOpener(out) ==> HasOpener(q + out)
  {
    if !IsOpen(y) {
      GuardedAppend(q, out);
    }
    if HasOpener(q) {
      var i :| 0 <= i < |q| && Opener(q[i]);
      assert Opener((q + out)[i]);
    } else if HasOpener(out) {
      var i :| 0 <= i < |out| && Opener(out[i]);
      assert Opener((q + out)[|q| + i]);
    }
  }

  // ----- what each step keeps, for one id -----

  /** Both directions. */
  ghost predicate Both(x: Option<Channel>, y: Option<Channel>, q: seq<Message>, r: seq<Message>)
  {
    Ordered(x, y, q) && Ordered(y, x, r) && Conserved(x, y, q) && Conserved(y, x, r)
  }

  /** x sends more, none of it data. */
  lemma MoreOrdered(x: Option<Channel>, y: Option<Channel>, q: seq<Message>, out: seq<Message>)
    requires Ordered(x, y, q) && NoData(out) && forall i | 0 <= i < |out| :: Justified(x, out[i])
    ensures Ordered(x, y, q + out)
  {
    NoPayloads(out);
    GuardedQ(q, out, y);
  }

  lemma MoreConserved(x: Option<Channel>, y: Option<Channel>, q: seq<Message>, out: seq<Message>)
    requires Conserved(x, y, q) && NoData(out)
    ensures Conserved(x, y, q + out)
  {
    PayloadsAppend(q, out);
    NoPayloads(out);
  }

  lemma CreateKeeps(x: Option<Channel>, y: Option<Channel>, q: seq<Message>, r: seq<Message>,
                    ch: Channel, out: seq<Message>)
    requires Both(x, y, q, r) && x.None? && Fresh(ch) && Openers(out, ch.name)
    ensures Both(Some(ch), y, q + out, r)
  {
    MoreOrdered(Some(ch), y, q, out);
    MoreConserved(Some(ch), y, q, out);
  }

  /** When a channel x may give way to a new one of that name under the same id:
      nothing has gone through it, all it has under way is the opening message
      the new one would send, and the other end will still open the new one before
      it sends data. */
  ghost predicate Replaceable(x: Channel, y: Option<Channel>, q: seq<Message>, r: seq<Message>, name: seq<int>)
  {
    && x.sent == [] && x.received == []
    && (forall i | 0 <= i < |q| :: q[i].kind == Open && q[i].payload == name)
    && (y.Some? && !y.value.local ==> y.value.name == name)
    && (IsOpen(y) ==> HasOpener(r)) && Guarded(r)
  }

  /** Creating an id that is in use keeps both directions in order exactly if the
      channel it had may give way. */
  lemma RecreateExactly(x: Channel, y: Option<Channel>, q: seq<Message>, r: seq<Message>, ch: Channel,
                        out: seq<Message>)
    requires Both(Some(x), y, q, r) && Fresh(ch) && Openers(out, ch.name)
    ensures Both(Some(ch), y, q + out, r) <==> Replaceable(x, y, q, r, ch.name)
  {
    PayloadsAppend(q, out);
    NoPayloads(out);
    if Replaceable(x, y, q, r, ch.name) {
      RecreateKeeps(x, y, q, r, ch, out);
    } else if Both(Some(ch), y, q + out, r) {
      RecreateNeeds(x, y, q, r, ch, out);
    }
  }

  lemma RecreateKeeps(x: Channel, y: Option<Channel>, q: seq<Message>, r: seq<Message>, ch: Channel, out: seq<Message>)
    requires Both(Some(x), y, q, r) && Fresh(ch) && Openers(out, ch.name) && Replaceable(x, y, q, r, ch.name)
    ensures Both(Some(ch), y, q + out, r)
  {
    NoPayloads(q);
    MoreOrdered(Some(ch), y, q, out);
    MoreConserved(Some(ch), y, q, out);
  }

  lemma RecreateNeeds(x: Channel, y: Option<Channel>, q: seq<Message>, r: seq<Message>, ch: Channel, out: seq<Message>)
    requires Both(Some(x), y, q, r) && Fresh(ch) && Payloads(q + out) == Payloads(q) && Both(Some(ch), y, q + out, r)
    ensures Replaceable(x, y, q, r, ch.name)
  {
    forall i | 0 <= i < |q| ensures q[i].kind == Open && q[i].payload == ch.name {
      assert Justified(Some(ch), (q + out)[i]);
    }
  }

  /** A channel just created, and what it may send at once. */
  ghost predicate Fresh(ch: Channel)
  {
    && ch.status == Connecting && ch.local && ch.sent == [] && ch.received == []
    && ch.bytesSent == 0 && ch.bytesReceived == 0 && |ch.name| < MAX_LABEL
  }

  ghost predicate Openers(out: seq<Message>, name: seq<int>)
  {
    forall i | 0 <= i < |out| :: out[i].kind == Open && out[i].payload == name
  }

  lemma ConnectKeeps(x: Option<Channel>, y: Option<Channel>, q: seq<Message>, r: seq<Message>, out: seq<Message>)
    requires Both(x, y, q, r) && (out != [] ==> x.Some?)
    requires forall i | 0 <= i < |out| :: out[i].kind == Open && out[i].payload == x.value.name
    ensures Both(x, y, q + out, r)
  {
    MoreOrdered(x, y, q, out);
    MoreConserved(x, y, q, out);
  }

  lemma SendKeeps(x: Channel, y: Option<Channel>, q: seq<Message>, r: seq<Message>, id: int, p: seq<int>, x': Channel)
    requires Both(Some(x), y, q, r) && x.status == Opened
    requires x' == x.(sent := x.sent + [p], bytesSent := x.bytesSent + |p|)
    ensures Both(Some(x'), y, q + [Message(id, Data, p)], r)
  {
    GuardedQ(q, [Message(id, Data, p)], y);
    SendConserved(x, y, q, Message(id, Data, p), x');
  }

  lemma SendConserved(x: Channel, y: Option<Channel>, q: seq<Message>, m: Message, x': Channel)
    requires Conserved(Some(x), y, q) && m.kind == Data
    requires x' == x.(sent := x.sent + [m.payload], bytesSent := x.bytesSent + |m.payload|)
    ensures Conserved(Some(x'), y, q + [m])
  {
    PayloadsAppend(q, [m]);
    TotalAppend(x.sent, m.payload);
    assert Payloads([m]) == [m.payload];
    ConcatAssociates(Received(y), Payloads(q), [m.payload]);
  }

  /** An OPEN or an ACK opens a channel that is there. */
  lemma OpenKeeps(x: Channel, y: Option<Channel>, q: seq<Message>, r: seq<Message>, out: seq<Message>, x': Channel)
    requires r != [] && Both(Some(x), y, q, r) && Opener(r[0]) && x' == x.(status := Opened)
    requires forall i | 0 <= i < |out| :: out[i].kind == Ack
    requires r[0].kind == Open ==> out != []
    ensures Both(Some(x'), y, q + out, r[1..])
  {
    if out != [] {
      assert Opener(out[0]);
    }
    assert Justified(y, r[0]);
    MoreConserved(Some(x'), y, q, out);
    GuardedQ(q, out, y);
    NoPayloads(out);
  }

  /** An OPEN for an unknown id makes a channel with the creator's name. */
  lemma RemoteKeeps(y: Option<Channel>, q: seq<Message>, r: seq<Message>, id: int, x': Channel)
    requires r != [] && Both(None, y, q, r) && r[0].kind == Open
    requires x' == Channel(Label(r[0].payload), Opened, false, [], [], 0, 0)
    ensures Both(Some(x'), y, q + [Message(id, Ack, [])], r[1..])
  {
    var out := [Message(id, Ack, [])];
    assert Justified(y, r[0]) && Opener(out[0]);
    MoreConserved(Some(x'), y, q, out);
    GuardedQ(q, out, y);
    NoPayloads(out);
  }

  lemma IgnoreKeeps(x: Option<Channel>, y: Option<Channel>, q: seq<Message>, r: seq<Message>)
    requires r != [] && Both(x, y, q, r) && r[0].kind != Data && (x.None? || IsOpen(x))
    ensures Both(x, y, q, r[1..])
  {
    if x.None? {
      assert NoData(r) by {
        assert forall i | 0 <= i < |r| :: Justified(y, r[i]);
      }
      NoPayloads(r[1..]);
    }
  }

  /** Data finds an open channel and is handed over. */
  lemma DataKeeps(x: Option<Channel>, y: Option<Channel>, q: seq<Message>, r: seq<Message>)
    requires r != [] && Both(x, y, q, r) && r[0].kind == Data
    ensures IsOpen(x)
    ensures var ch, p := x.value, r[0].payload;
            Both(Some(ch.(received := ch.received + [p], bytesReceived := ch.bytesReceived + |p|)), y, q, r[1..])
  {
    var ch, p := x.value, r[0].payload;
    var ch' := ch.(received := ch.received + [p], bytesReceived := ch.bytesReceived + |p|);
    DataConserved(ch, y, q, r, ch');
  }

  lemma DataConserved(x: Channel, y: Option<Channel>, q: seq<Message>, r: seq<Message>, x': Channel)
    requires r != [] && r[0].kind == Data && Conserved(Some(x), y, q) && Conserved(y, Some(x), r)
    requires x' == x.(received := x.received + [r[0].payload], bytesReceived := x.bytesReceived + |r[0].payload|)
    ensures Conserved(Some(x'), y, q) && Conserved(y, Some(x'), r[1..])
  {
    var p := r[0].payload;
    TotalAppend(x.received, p);
    assert Payloads(r) == [p] + Payloads(r[1..]);
    ConcatAssociates(x.received, [p], Payloads(r[1..]));
  }

  lemma OnlyOne(m: Message, id: int)
    ensures Only([m], id) == if m.id == id then [m] else []
  {
    assert Only([m][1..], id) == [];
  }

  lemma HandleKeeps(mgr: Manager, y: Option<Channel>, q: seq<Message>, r: seq<Message>, m: Message, memory: bool)
    requires r != [] && m == r[0] && Both(Get(mgr, m.id), y, q, r)
    ensures var o := Handle(mgr, m, memory);
            Both(Get(o.mgr, m.id), y, q + Only(o.out, m.id), r[1..])
  {
    assert Justified(y, r[0]);
    match m.kind
    case Data => HandleData(mgr, y, q, r, m, memory);
    case Open => HandleOpen(mgr, y, q, r, m, memory);
    case Ack => HandleAck(mgr, y, q, r, m, memory);
  }

  lemma HandleData(mgr: Manager, y: Option<Channel>, q: seq<Message>, r: seq<Message>, m: Message, memory: bool)
    requires r != [] && m == r[0] && m.kind == Data && Both(Get(mgr, m.id), y, q, r)
    ensures var o := Handle(mgr, m, memory);
            Both(Get(o.mgr, m.id), y, q + Only(o.out, m.id), r[1..])
  {
    assert q + [] == q;
    DataKeeps(Get(mgr, m.id), y, q, r);
  }

  lemma HandleAck(mgr: Manager, y: Option<Channel>, q: seq<Message>, r: seq<Message>, m: Message, memory: bool)
    requires r != [] && m == r[0] && m.kind == Ack && Both(Get(mgr, m.id), y, q, r)
    ensures var o := Handle(mgr, m, memory);
            Both(Get(o.mgr, m.id), y, q + Only(o.out, m.id), r[1..])
  {
    var x := Get(mgr, m.id);
    assert q + [] == q;
    if x.Some? && !IsOpen(x) {
      OpenKeeps(x.value, y, q, r, [], x.value.(status := Opened));
    } else {
      IgnoreKeeps(x, y, q, r);
    }
  }

  lemma HandleOpen(mgr: Manager, y: Option<Channel>, q: seq<Message>, r: seq<Message>, m: Message, memory: bool)
    requires r != [] && m == r[0] && m.kind == Open && Both(Get(mgr, m.id), y, q, r)
    ensures var o := Handle(mgr, m, memory);
            Both(Get(o.mgr, m.id), y, q + Only(o.out, m.id), r[1..])
  {
    var x, o := Get(mgr, m.id), Handle(mgr, m, memory);
    OnlyOne(Message(m.id, Ack, []), m.id);
    if x.Some? {
      OpenKeeps(x.value, y, q, r, o.out, o.mgr.channels[m.id]);
    } else if o.out != [] {
      RemoteKeeps(y, q, r, m.id, o.mgr.channels[m.id]);
    } else {
      IgnoreKeeps(x, y, q, r);
      assert q + [] == q;
    }
  }

  lemma {:induction false} OnlyOf(out: seq<Message>, id: int, i: int)
    requires 0 <= i < |Only(out, id)|
    ensures Only(out, id)[i].id == id && Only(out, id)[i] in out
  {
    if out[0].id == id {
      if i > 0 {
        OnlyOf(out[1..], id, i - 1);
      }
    } else {
      OnlyOf(out[1..], id, i);
    }
  }

  lemma HandleOther(mgr: Manager, m: Message, memory: bool, id: int)
    requires m.id != id
    ensures Get(Handle(mgr, m, memory).mgr, id) == Get(mgr, id) && Only(Handle(mgr, m, memory).out, id) == []
  {
    OnlyOne(Message(m.id, Ack, []), id);
  }

  lemma ReceiveKeeps(mgr: Manager, y: Option<Channel>, q: seq<Message>, link: seq<seq<int>>, memory: bool, id: int)
    requires Frames(link) && link != [] && Both(Get(mgr, id), y, q, Flow(link, id))
    ensures var o := Receive(mgr, link[0], memory);
            Both(Get(o.mgr, id), y, q + Only(o.out, id), Flow(link[1..], id))
  {
    var m := Decode(link[0]);
    assert q + [] == q;
    if m.Some? {
      if m.value.id == id {
        assert Flow(link, id)[1..] == Flow(link[1..], id);
        HandleKeeps(mgr, y, q, Flow(link, id), m.value, memory);
      } else {
        HandleOther(mgr, m.value, memory, id);
      }
    }
  }

  lemma OpeningsKeep(mgr: Manager, y: Option<Channel>, q: seq<Message>, r: seq<Message>, order: seq<int>, id: int)
    requires Both(Get(mgr, id), y, q, r)
    ensures Both(Get(mgr, id), y, q + Only(Openings(mgr, order), id), r)
  {
    var out := Openings(mgr, order);
    var only := Only(out, id);
    forall i | 0 <= i < |only|
      ensures id in mgr.channels && only[i].kind == Open && only[i].payload == mgr.channels[id].name
    {
      OnlyOf(out, id, i);
    }
    assert only != [] ==> only[0].kind == Open;
    ConnectKeeps(Get(mgr, id), y, q, r, only);
  }

  /** Whether an action closes an id or puts a channel in the place of one that may
      not give way. */
  ghost predicate Breaks(mgr: Manager, act: Action, y: Option<Channel>, q: seq<Message>, r: seq<Message>, id: int)
  {
    || act == DoShut(id)
    || (Recreates(mgr, act, id) && !Replaceable(mgr.channels[id], y, q, r, Label(act.text)))
  }

  ghost predicate Recreates(mgr: Manager, act: Action, id: int)
  {
    act.DoCreate? && act.memory && |mgr.channels| < MAX_CHANNELS
    && ChannelId(mgr, act.asked) == id && id in mgr.channels
  }

  /** Every other action keeps an id's two directions in order. */
  lemma ActKeeps(mgr: Manager, y: Option<Channel>, q: seq<Message>, link: seq<seq<int>>, act: Action, id: int)
    requires Possible(mgr, link, act) && Both(Get(mgr, id), y, q, Flow(link, id))
    requires !Breaks(mgr, act, y, q, Flow(link, id), id)
    ensures var o := Act(mgr, link, act);
            Both(Get(o.mgr, id), y, q + Only(o.out, id), Flow(Rest(link, act), id))
  {
    match act
    case DoCreate(asked, text, memory) => CreateActs(mgr, y, q, Flow(link, id), asked, text, memory, id);
    case DoConnect(order) => OpeningsKeep(mgr, y, q, Flow(link, id), order, id);
    case DoSend(i, payload) => SendActs(mgr, y, q, Flow(link, id), i, payload, id);
    case DoShut(i) => ShutOther(mgr, q, i, id);
    case DoReceive(memory) => ReceiveKeeps(mgr, y, q, link, memory, id);
  }

  lemma CreateActs(mgr: Manager, y: Option<Channel>, q: seq<Message>, r: seq<Message>,
                   asked: Option<int>, text: seq<int>, memory: bool, id: int)
    requires Both(Get(mgr, id), y, q, r) && !Breaks(mgr, DoCreate(asked, text, memory), y, q, r, id)
    ensures var o := Create(mgr, asked, text, memory); Both(Get(o.mgr, id), y, q + Only(o.out, id), r)
  {
    var given := ChannelId(mgr, asked);
    assert q + [] == q;
    OnlyOne(Message(given, Open, Label(text)), id);
    if given == id && memory && |mgr.channels| < MAX_CHANNELS {
      CreatesNew(mgr, y, q, r, text, id);
    }
  }

  lemma CreatesNew(mgr: Manager, y: Option<Channel>, q: seq<Message>, r: seq<Message>, text: seq<int>, id: int)
    requires Both(Get(mgr, id), y, q, r)
    requires id in mgr.channels ==> Replaceable(mgr.channels[id], y, q, r, Label(text))
    ensures Both(Some(Channel(Label(text), Connecting, true, [], [], 0, 0)), y,
                 q + (if mgr.connected then [Message(id, Open, Label(text))] else []), r)
  {
    var ch, out := Channel(Label(text), Connecting, true, [], [], 0, 0),
                   if mgr.connected then [Message(id, Open, Label(text))] else [];
    if id in mgr.channels {
      RecreateKeeps(mgr.channels[id], y, q, r, ch, out);
    } else {
      CreateKeeps(None, y, q, r, ch, out);
    }
  }

  lemma SendActs(mgr: Manager, y: Option<Channel>, q: seq<Message>, r: seq<Message>, i: int, payload: seq<int>, id: int)
    requires Both(Get(mgr, id), y, q, r)
    ensures var o := Send(mgr, i, payload); Both(Get(o.mgr, id), y, q + Only(o.out, id), r)
  {
    var o := Send(mgr, i, payload);
    assert q + [] == q;
    OnlyOne(Message(i, Data, payload), id);
    if i == id && o.out != [] {
      SendKeeps(mgr.channels[id], y, q, r, id, payload, o.mgr.channels[id]);
    }
  }

  lemma ShutOther(mgr: Manager, q: seq<Message>, i: int, id: int)
    requires i != id
    ensures var o := Shut(mgr, i); Get(o.mgr, id) == Get(mgr, id) && q + Only(o.out, id) == q
  {
    OnlyOne(Message(i, Close, []), id);
    assert q + [] == q;
  }

  // ----- runs -----

  ghost predicate Wellformed(mgr: Manager)
  {
    forall id | id in mgr.channels ::
      0 <= id < 0x1_0000 && |mgr.channels[id].name| < MAX_LABEL && AreBytes(mgr.channels[id].name)
  }

  lemma DecodedBytes(frame: seq<int>)
    requires AreBytes(frame) && Decode(frame).Some?
    ensures Sendable(Decode(frame).value)
  {
    var m, n := Decode(frame).value, Read16(frame, 4);
    forall k | 0 <= k < |m.payload| ensures IsByte(m.payload[k]) {
      assert m.payload[k] == frame[6 + k];
    }
  }

  lemma ActSendable(mgr: Manager, link: seq<seq<int>>, act: Action)
    requires Possible(mgr, link, act) && Wellformed(mgr)
    ensures var o := Act(mgr, link, act); AllSendable(o.out) && Wellformed(o.mgr)
  {
    if act.DoReceive? && Decode(link[0]).Some? {
      DecodedBytes(link[0]);
    }
  }

  const Start := World(Manager(map[], 0, false), Manager(map[], 0, false), [], [], {})

  /** Every id that is not broken is in order in both directions. */
  ghost predicate Inv(w: World)
  {
    && Frames(w.ab) && Frames(w.ba) && Wellformed(w.a) && Wellformed(w.b)
    && forall id | id !in w.broken :: Both(Get(w.a, id), Get(w.b, id), Flow(w.ab, id), Flow(w.ba, id))
  }

  /** An action at one of the two ends, a if left. */
  datatype Event = Event(left: bool, act: Action)

  ghost predicate Enabled(w: World, e: Event)
  {
    && Wellformed(w.a) && Wellformed(w.b) && Frames(w.ab) && Frames(w.ba)
    && if e.left then Possible(w.a, w.ba, e.act) else Possible(w.b, w.ab, e.act)
  }

  /** The id an action is about, if it could break it. */
  function Concerned(mgr: Manager, act: Action): int
  {
    match act case DoShut(id) => id case DoCreate(asked, _, _) => ChannelId(mgr, asked) case _ => -1
  }

  ghost function Broken(w: World, e: Event): set<int>
    requires Enabled(w, e)
  {
    var id := Concerned(if e.left then w.a else w.b, e.act);
    if if e.left then Breaks(w.a, e.act, Get(w.b, id), Flow(w.ab, id), Flow(w.ba, id), id)
       else Breaks(w.b, e.act, Get(w.a, id), Flow(w.ba, id), Flow(w.ab, id), id)
    then w.broken + {id} else w.broken
  }

  ghost function Next(w: World, e: Event): World
    requires Enabled(w, e)
  {
    if e.left then
      ActSendable(w.a, w.ba, e.act);
      var o := Act(w.a, w.ba, e.act);
      World(o.mgr, w.b, w.ab + EncodeAll(o.out), Rest(w.ba, e.act), Broken(w, e))
    else
      ActSendable(w.b, w.ab, e.act);
      var o := Act(w.b, w.ab, e.act);
      World(w.a, o.mgr, Rest(w.ab, e.act), w.ba + EncodeAll(o.out), Broken(w, e))
  }

  lemma BothSides(x: Option<Channel>, y: Option<Channel>, q: seq<Message>, r: seq<Message>)
    ensures Both(x, y, q, r) <==> Both(y, x, r, q)
  {
  }

  lemma LeftKeeps(w: World, act: Action, id: int)
    requires Inv(w) && Possible(w.a, w.ba, act) && id !in Broken(w, Event(true, act))
    ensures var w' := Next(w, Event(true, act));
            && Frames(w'.ab) && Frames(w'.ba) && Wellformed(w'.a) && Wellformed(w'.b)
            && Both(Get(w'.a, id), Get(w'.b, id), Flow(w'.ab, id), Flow(w'.ba, id))
  {
    var o := Act(w.a, w.ba, act);
    ActSendable(w.a, w.ba, act);
    assert Both(Get(w.a, id), Get(w.b, id), Flow(w.ab, id), Flow(w.ba, id));
    ActKeeps(w.a, Get(w.b, id), Flow(w.ab, id), w.ba, act, id);
    FlowAppend(w.ab, o.out, id);
  }

  lemma RightKeeps(w: World, act: Action, id: int)
    requires Inv(w) && Possible(w.b, w.ab, act) && id !in Broken(w, Event(false, act))
    ensures var w' := Next(w, Event(false, act));
            && Frames(w'.ab) && Frames(w'.ba) && Wellformed(w'.a) && Wellformed(w'.b)
            && Both(Get(w'.a, id), Get(w'.b, id), Flow(w'.ab, id), Flow(w'.ba, id))
  {
    var o := Act(w.b, w.ab, act);
    ActSendable(w.b, w.ab, act);
    assert Both(Get(w.a, id), Get(w.b, id), Flow(w.ab, id), Flow(w.ba, id));
    BothSides(Get(w.a, id), Get(w.b, id), Flow(w.ab, id), Flow(w.ba, id));
    ActKeeps(w.b, Get(w.a, id), Flow(w.ba, id), w.ab, act, id);
    FlowAppend(w.ba, o.out, id);
  }

  lemma StepKeeps(w: World, e: Event)
    requires Inv(w) && Enabled(w, e)
    ensures Inv(Next(w, e))
  {
    var w' := Next(w, e);
    LinksKept(w, e);
    forall id | id !in w'.broken
      ensures Both(Get(w'.a, id), Get(w'.b, id), Flow(w'.ab, id), Flow(w'.ba, id))
    {
      if e.left {
        LeftKeeps(w, e.act, id);
      } else {
        RightKeeps(w, e.act, id);
      }
    }
  }

  lemma LinksKept(w: World, e: Event)
    requires Inv(w) && Enabled(w, e)
    ensures var w' := Next(w, e); Frames(w'.ab) && Frames(w'.ba) && Wellformed(w'.a) && Wellformed(w'.b)
  {
    if e.left {
      ActSendable(w.a, w.ba, e.act);
    } else {
      ActSendable(w.b, w.ab, e.act);
    }
  }

  ghost predicate Runs(w: World, es: seq<Event>)
    decreases |es|
  {
    es == [] || (Enabled(w, es[0]) && Runs(Next(w, es[0]), es[1..]))
  }

  ghost function After(w: World, es: seq<Event>): World
    requires Runs(w, es)
    decreases |es|
  {
    if es == [] then w else After(Next(w, es[0]), es[1..])
  }

  lemma {:induction false} RunKeeps(w: World, es: seq<Event>)
    requires Inv(w) && Runs(w, es)
    ensures Inv(After(w, es))
    decreases |es|
  {
    if es != [] {
      StepKeeps(w, es[0]);
      RunKeeps(Next(w, es[0]), es[1..]);
    }
  }

  lemma StartInv()
    ensures Inv(Start)
  {
    forall id ensures Both(Get(Start.a, id), Get(Start.b, id), Flow(Start.ab, id), Flow(Start.ba, id)) {
      assert Both(None, None, [], []);
    }
  }

  /** In every run, on an id that was neither closed nor wrongly created again:
      what each end has sent is what the other has received and then what is under
      way, in order and each once; when nothing is under way the counters agree.
      A remote channel has its creator's name. */
  lemma Delivered(es: seq<Event>, id: int)
    requires Runs(Start, es) && id !in After(Start, es).broken
    ensures var w := After(Start, es);
            && Frames(w.ab) && Frames(w.ba)
            && Flowing(Get(w.a, id), Get(w.b, id), Payloads(Flow(w.ab, id)))
            && Flowing(Get(w.b, id), Get(w.a, id), Payloads(Flow(w.ba, id)))
  {
    StartInv();
    RunKeeps(Start, es);
    var w := After(Start, es);
    assert Both(Get(w.a, id), Get(w.b, id), Flow(w.ab, id), Flow(w.ba, id));
    BothFlowing(Get(w.a, id), Get(w.b, id), Flow(w.ab, id), Flow(w.ba, id));
    BothFlowing(Get(w.b, id), Get(w.a, id), Flow(w.ba, id), Flow(w.ab, id));
  }

  /** What x has sent is what y has received and then what is under way. */
  ghost predicate Flowing(x: Option<Channel>, y: Option<Channel>, payloads: seq<seq<int>>)
  {
    && Sent(x) == Received(y) + payloads
    && (x.Some? && y.Some? && payloads == [] ==> y.value.bytesReceived == x.value.bytesSent)
    && (y.Some? && !y.value.local ==> x.Some? && x.value.name == y.value.name)
  }

  lemma BothFlowing(x: Option<Channel>, y: Option<Channel>, q: seq<Message>, r: seq<Message>)
    requires Both(x, y, q, r)
    ensures Flowing(x, y, Payloads(q))
  {
    assert Received(y) + [] == Received(y);
  }

  // ----- creating an id again -----

  /** Both ends number their channels from 0, so the first automatic id of one
      end is the id of the first channel the other has opened. */
  lemma AutomaticIdsCollide(mgr: Manager, m: Message)
    requires mgr == Start.b && m.kind == Open && m.id == ChannelId(Start.a, None)
    ensures var mgr' := Handle(mgr, m, true).mgr; ChannelId(mgr', None) in mgr'.channels
  {
  }

  lemma RunStep(w: World, e: Event, es: seq<Event>)
    requires Enabled(w, e) && Runs(Next(w, e), es)
    ensures Runs(w, [e] + es) && After(w, [e] + es) == After(Next(w, e), es)
  {
    assert ([e] + es)[1..] == es;
  }

  ghost predicate At(w: World, a: Manager, b: Manager, ab: seq<Message>, ba: seq<Message>)
  {
    w.a == a && w.b == b && AllSendable(ab) && AllSendable(ba) && w.ab == EncodeAll(ab) && w.ba == EncodeAll(ba)
  }

  /** An action at a that receives nothing, starting from an empty link to b. */
  lemma LeftActs(w: World, a: Manager, b: Manager, ba: seq<Message>, act: Action, a': Manager, ab': seq<Message>)
    requires At(w, a, b, [], ba) && Wellformed(a) && Wellformed(b) && Possible(a, w.ba, act) && !act.DoReceive?
    requires Act(a, w.ba, act) == Outcome(a', ab') && AllSendable(ab')
    ensures Enabled(w, Event(true, act)) && At(Next(w, Event(true, act)), a', b, ab', ba)
  {
    assert [] + EncodeAll(ab') == EncodeAll(ab');
  }

  /** A message m arrives at b, which may answer. */
  lemma RightHears(w: World, a: Manager, b: Manager, m: Message, b': Manager, ba': seq<Message>)
    requires At(w, a, b, [m], []) && Wellformed(a) && Wellformed(b) && AllSendable(ba')
    requires Handle(b, m, true) == Outcome(b', ba')
    ensures Enabled(w, Event(false, DoReceive(true))) && At(Next(w, Event(false, DoReceive(true))), a, b', [], ba')
  {
    Framed(m);
    assert w.ab[0] == Encode(m) && w.ab[1..] == [];
    assert [] + EncodeAll(ba') == EncodeAll(ba');
  }

  lemma LeftHears(w: World, a: Manager, b: Manager, m: Message, a': Manager)
    requires At(w, a, b, [], [m]) && Wellformed(a) && Wellformed(b)
    requires Handle(a, m, true) == Outcome(a', [])
    ensures Enabled(w, Event(true, DoReceive(true))) && At(Next(w, Event(true, DoReceive(true))), a', b, [], [])
  {
    Framed(m);
    assert w.ba[0] == Encode(m) && w.ba[1..] == [];
    assert [] + EncodeAll([]) == [];
  }

  /** b creates a channel while it is not connected. */
  lemma RightCreates(w: World, a: Manager, b: Manager, ab: seq<Message>, act: Action, b': Manager)
    requires At(w, a, b, ab, []) && Wellformed(a) && Wellformed(b) && act.DoCreate? && AreBytes(act.text)
    requires Create(b, act.asked, act.text, act.memory) == Outcome(b', [])
    ensures Enabled(w, Event(false, act)) && At(Next(w, Event(false, act)), a, b', ab, [])
  {
    assert [] + EncodeAll([]) == [];
  }

  lemma {:induction false} RunJoin(w: World, es: seq<Event>, more: seq<Event>)
    requires Runs(w, es) && Runs(After(w, es), more)
    ensures Runs(w, es + more) && After(w, es + more) == After(After(w, es), more)
    decreases |es|
  {
    if es == [] {
      assert es + more == more;
    } else {
      var e, w1, rest := es[0], Next(w, es[0]), es[1..];
      RunJoin(w1, rest, more);
      RunStep(w, e, rest + more);
      FrontFirst(es, more);
    }
  }

  lemma FrontFirst(es: seq<Event>, more: seq<Event>)
    requires es != []
    ensures [es[0]] + (es[1..] + more) == es + more
  {
  }

  ghost predicate NobodyCloses(es: seq<Event>)
  {
    forall i | 0 <= i < |es| :: !es[i].act.DoShut?
  }

  const First := Channel([], Connecting, true, [], [], 0, 0)
  const Opener0 := Manager(map[0 := First.(status := Opened)], 2, true)
  const Accepter0 := Manager(map[0 := Channel([], Opened, false, [], [], 0, 0)], 0, false)

  /** a connects and creates its first channel. */
  lemma FirstCreated() returns (es: seq<Event>)
    ensures Runs(Start, es) && NobodyCloses(es)
    ensures At(After(Start, es), Manager(map[0 := First], 2, true), Start.b, [Message(0, Open, [])], [])
  {
    var connected := Manager(map[], 0, true);
    var e, f := Event(true, DoConnect([])), Event(true, DoCreate(None, [], true));
    LeftActs(Start, Start.a, Start.b, [], e.act, connected, []);
    var w := Next(Start, e);
    LeftActs(w, connected, Start.b, [], f.act, Manager(map[0 := First], 2, true), [Message(0, Open, [])]);
    RunStep(w, f, []);
    RunStep(Start, e, [f]);
    es := [e] + [f];
  }

  /** b accepts it and a hears of it. */
  lemma FirstAccepted(w: World) returns (es: seq<Event>)
    requires At(w, Manager(map[0 := First], 2, true), Start.b, [Message(0, Open, [])], [])
    ensures Runs(w, es) && NobodyCloses(es) && At(After(w, es), Opener0, Accepter0, [], [])
  {
    var a := Manager(map[0 := First], 2, true);
    var e, f := Event(false, DoReceive(true)), Event(true, DoReceive(true));
    RightHears(w, a, Start.b, Message(0, Open, []), Accepter0, [Message(0, Ack, [])]);
    var w1 := Next(w, e);
    LeftHears(w1, a, Accepter0, Message(0, Ack, []), Opener0);
    RunStep(w1, f, []);
    RunStep(w, e, [f]);
    es := [e] + [f];
  }

  /** a sends a byte, b creates its own first channel, and the byte arrives there. */
  lemma FirstReplaced(w: World) returns (es: seq<Event>)
    requires At(w, Opener0, Accepter0, [], [])
    ensures Runs(w, es) && NobodyCloses(es)
    ensures At(After(w, es), Put(Opener0, 0, First.(status := Opened, sent := [[7]], bytesSent := 1)),
               Manager(map[0 := First], 2, false), [], [])
  {
    var a := Put(Opener0, 0, First.(status := Opened, sent := [[7]], bytesSent := 1));
    var b, data := Manager(map[0 := First], 2, false), Message(0, Data, [7]);
    var e := Event(true, DoSend(0, [7]));
    SendsFirst(a, data);
    LeftActs(w, Opener0, Accepter0, [], e.act, a, [data]);
    var w1 := Next(w, e);
    var rest := ReplacedHears(w1, a, b, data);
    RunStep(w, e, rest);
    es := [e] + rest;
  }

  lemma ReplacedHears(w: World, a: Manager, b: Manager, data: Message) returns (es: seq<Event>)
    requires At(w, a, Accepter0, [data], []) && Wellformed(a)
    requires b == Manager(map[0 := First], 2, false) && data == Message(0, Data, [7])
    ensures Runs(w, es) && NobodyCloses(es) && At(After(w, es), a, b, [], [])
  {
    var f, g := Event(false, DoCreate(None, [], true)), Event(false, DoReceive(true));
    RightCreates(w, a, Accepter0, [data], f.act, b);
    var w1 := Next(w, f);
    RightHears(w1, a, b, data, b, []);
    RunStep(w1, g, []);
    RunStep(w, f, [g]);
    es := [f] + [g];
  }

  lemma SendsFirst(a: Manager, data: Message)
    requires a == Put(Opener0, 0, First.(status := Opened, sent := [[7]], bytesSent := 1))
    requires data == Message(0, Data, [7])
    ensures Send(Opener0, 0, [7]) == Outcome(a, [data])
  {
    assert [] + [[7]] == [[7]];
  }

  /** a opens its first channel, b accepts it, a hears of it and sends a byte; b
      then creates its own first channel, and what a has sent is gone. */
  lemma FirstChannelsCollide() returns (es: seq<Event>)
    ensures Runs(Start, es) && NobodyCloses(es)
    ensures var w := After(Start, es);
            && Frames(w.ab) && Flow(w.ab, 0) == [] && Sent(Get(w.a, 0)) == [[7]] && Received(Get(w.b, 0)) == []
            && !Flowing(Get(w.a, 0), Get(w.b, 0), Payloads(Flow(w.ab, 0)))
  {
    var creating := FirstCreated();
    var accepting := FirstAccepted(After(Start, creating));
    RunJoin(Start, creating, accepting);
    var replacing := FirstReplaced(After(Start, creating + accepting));
    RunJoin(Start, creating + accepting, replacing);
    es := creating + accepting + replacing;
  }
}
