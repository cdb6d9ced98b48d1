/** Whole runs of the scheduler, over what its operations promise. */
module TimerRuns {
  import opened TimerSched

  /** `dead` holds the handles that have fired, or were cancelled after being given out. */
  datatype State = State(pending: set<Node>, issued: set<int>, dead: set<int>)

  /** `Idle` is a look for due timers that finds none, `Skip` an addition that fails. */
  datatype Op = Add(node: Node) | Cancel(handle: int) | Fire(node: Node, now: int) | Idle(now: int) | Skip

  ghost predicate Step(s: State, op: Op, s': State)
  {
    match op
    case Add(n) => HandleOf(n) !in s.issued
                   && s' == State(s.pending + {n}, s.issued + {HandleOf(n)}, s.dead)
    case Cancel(h) => s' == State(Except(s.pending, h), s.issued, s.dead + ({h} * s.issued))
    case Fire(n, now) => n in s.pending && n.deadline <= now && (forall m | m in s.pending :: n.deadline <= m.deadline)
                         && s' == State(s.pending - {n}, s.issued, s.dead + {HandleOf(n)})
    case Idle(now) => (forall m | m in s.pending :: m.deadline > now) && s' == s
    case Skip => s' == s
  }

  ghost predicate Run(ss: seq<State>, ops: seq<Op>)
  {
    && |ss| == |ops| + 1 && ss[0] == State({}, {}, {})
    && forall i | 0 <= i < |ops| :: Step(ss[i], ops[i], ss[i + 1])
  }

  ghost predicate Sound(s: State)
  {
    && s.dead <= s.issued
    && (forall n | n in s.pending :: HandleOf(n) in s.issued && HandleOf(n) !in s.dead)
    && (forall x, y | x in s.pending && y in s.pending && HandleOf(x) == HandleOf(y) :: x == y)
  }

  lemma {:induction false} RunSound(ss: seq<State>, ops: seq<Op>)
    requires Run(ss, ops)
    ensures forall i | 0 <= i < |ss| :: Sound(ss[i])
  {
    if |ops| > 0 {
      var n := |ops| - 1;
      RunSound(ss[..n + 1], ops[..n]);
      assert ss[..n + 1][n] == ss[n];
      assert Step(ss[n], ops[n], ss[n + 1]);
    }
  }

  lemma {:induction false} DeadForever(ss: seq<State>, ops: seq<Op>, i: int, j: int)
    requires Run(ss, ops) && 0 <= i <= j < |ss|
    ensures ss[i].dead <= ss[j].dead
    decreases j - i
  {
    if i < j {
      assert Step(ss[i], ops[i], ss[i + 1]);
      DeadForever(ss, ops, i + 1, j);
    }
  }

  /** A timer that has fired, or was cancelled, never fires again, whatever is
      added, cancelled or fired in between and however often its slot is reused. */
  lemma FiresAtMostOnce(ss: seq<State>, ops: seq<Op>, i: int, j: int, handle: int)
    requires Run(ss, ops) && 0 <= i < j < |ops|
    requires (ops[i].Fire? && HandleOf(ops[i].node) == handle) || (ops[i] == Cancel(handle) && handle in ss[i].issued)
    ensures !(ops[j].Fire? && HandleOf(ops[j].node) == handle)
  {
    RunSound(ss, ops);
    assert Step(ss[i], ops[i], ss[i + 1]) && Step(ss[j], ops[j], ss[j + 1]);
    DeadForever(ss, ops, i + 1, j);
    assert handle in ss[j].dead && Sound(ss[j]);
  }

  lemma {:induction false} HowItLeft(ss: seq<State>, ops: seq<Op>, i: int, j: int, n: Node) returns (k: int)
    requires Run(ss, ops) && 0 <= i <= j < |ss| && n in ss[i].pending && n !in ss[j].pending
    ensures i <= k < j && ((ops[k].Fire? && ops[k].node == n) || ops[k] == Cancel(HandleOf(n)))
    decreases j - i
  {
    assert Step(ss[i], ops[i], ss[i + 1]);
    if n in ss[i + 1].pending {
      k := HowItLeft(ss, ops, i + 1, j, n);
    } else {
      k := i;
    }
  }

  /** By the time a look at the clock finds nothing due, every timer added with a
      deadline up to then has fired or was cancelled. */
  lemma DueTimersFire(ss: seq<State>, ops: seq<Op>, i: int, j: int) returns (k: int)
    requires Run(ss, ops) && 0 <= i < j < |ops|
    requires ops[i].Add? && ops[j].Idle? && ops[i].node.deadline <= ops[j].now
    ensures i < k < j
    ensures (ops[k].Fire? && ops[k].node == ops[i].node) || ops[k] == Cancel(HandleOf(ops[i].node))
  {
    assert Step(ss[i], ops[i], ss[i + 1]) && Step(ss[j], ops[j], ss[j + 1]);
    k := HowItLeft(ss, ops, i + 1, j, ops[i].node);
  }

  /** What a caller asks of a scheduler. */
  datatype Command =
    | ToAdd(deadline: int, fn: int, user: int, heapMemory: bool, slotMemory: bool)
    | ToCancel(handle: int)
    | ToPop(now: int)

  predicate IsCommand(c: Command)
  {
    c.ToCancel? ==> 0 <= c.handle
  }

  /** What it gets back. */
  datatype Answer = Handle(handle: int) | Fired(node: Node) | Nothing

  /** A command, its answer and the step it was. */
  ghost predicate Answers(c: Command, op: Op, out: Answer)
  {
    match c
    case ToAdd(deadline, fn, user, _, _) =>
      && out.Handle?
      && if out.handle == 0 then op == Skip
         else op.Add? && HandleOf(op.node) == out.handle
              && op.node.deadline == deadline && op.node.fn == fn && op.node.user == user
    case ToCancel(handle) => out == Nothing && op == Cancel(handle)
    case ToPop(now) => if out.Fired? then op == Fire(out.node, now) else out == Nothing && op == Idle(now)
  }

  ghost predicate AllAnswered(commands: seq<Command>, ops: seq<Op>, outs: seq<Answer>)
  {
    && |outs| == |ops| <= |commands|
    && forall i | 0 <= i < |ops| :: Answers(commands[i], ops[i], outs[i])
  }

  lemma NextAnswered(commands: seq<Command>, ops: seq<Op>, outs: seq<Answer>, op: Op, out: Answer)
    requires AllAnswered(commands, ops, outs) && |ops| < |commands| && Answers(commands[|ops|], op, out)
    ensures AllAnswered(commands, ops + [op], outs + [out])
  {
  }

  /** A fresh scheduler carries out one command after the other; with fewer than
      2^32 - 1 of them no generation runs out, and what it does is a run: each
      addition gives out the handle of a timer with what was asked for, each look at
      the clock takes a due timer with the smallest deadline if there is one. */
  method Drive(commands: seq<Command>) returns (outs: seq<Answer>, ghost ss: seq<State>, ghost ops: seq<Op>)
    requires |commands| < GENERATIONS - 1 && forall i | 0 <= i < |commands| :: IsCommand(commands[i])
    ensures |ops| == |commands| && Run(ss, ops) && AllAnswered(commands, ops, outs)
  {
    var sched := new Sched();
    outs, ss, ops := [], [State({}, {}, {})], [];
    var i := 0;
    while i < |commands|
      invariant 0 <= i <= |commands| && |ops| == i && Run(ss, ops) && AllAnswered(commands, ops, outs)
      invariant fresh(sched) && sched.Valid() && sched.Unique() && Young(sched.generations, i)
      invariant ss[i].pending == sched.Pending() && ss[i].issued == sched.issued
    {
      ghost var op;
      var out;
      out, op := Perform(sched, commands[i], ss[i], i);
      NextRun(ss, ops, op, After(ss[i], op));
      NextAnswered(commands, ops, outs, op, out);
      ss, ops, outs := ss + [After(ss[i], op)], ops + [op], outs + [out];
      i := i + 1;
    }
  }

  /** One command, as a step of the state it stands for. */
  method Perform(sched: Sched, c: Command, ghost s: State, ghost n: int) returns (out: Answer, ghost op: Op)
    requires sched.Valid() && sched.Unique() && IsCommand(c) && 0 <= n < GENERATIONS - 1 && Young(sched.generations, n)
    requires s.pending == sched.Pending() && s.issued == sched.issued
    modifies sched
    ensures sched.Valid() && sched.Unique() && Young(sched.generations, n + 1)
    ensures Step(s, op, After(s, op)) && Answers(c, op, out)
    ensures After(s, op).pending == sched.Pending() && After(s, op).issued == sched.issued
  {
    ghost var gens := sched.generations;
    match c {
      case ToAdd(deadline, fn, user, heapMemory, slotMemory) =>
        var handle;
        ghost var node;
        handle, node := sched.Add(deadline, fn, user, heapMemory, slotMemory);
        Younger(gens, sched.generations, n);
        out, op := Handle(handle), if handle == 0 then Skip else Add(node);
      case ToCancel(handle) =>
        sched.Cancel(handle);
        out, op := Nothing, Cancel(handle);
      case ToPop(now) =>
        var due, node := sched.PopDue(now);
        if due {
          out, op := Fired(node), Fire(node, now);
        } else {
          out, op := Nothing, Idle(now);
        }
    }
  }

  /** The one state a step leads to. */
  ghost function After(s: State, op: Op): State
  {
    match op
    case Add(n) => State(s.pending + {n}, s.issued + {HandleOf(n)}, s.dead)
    case Cancel(h) => State(Except(s.pending, h), s.issued, s.dead + ({h} * s.issued))
    case Fire(n, _) => State(s.pending - {n}, s.issued, s.dead + {HandleOf(n)})
    case _ => s
  }

  lemma NextRun(ss: seq<State>, ops: seq<Op>, op: Op, s': State)
    requires Run(ss, ops) && Step(ss[|ops|], op, s')
    ensures Run(ss + [s'], ops + [op])
  {
  }

  ghost predicate Young(gens: seq<int>, n: int)
  {
    forall j | 0 <= j < |gens| :: gens[j] <= n
  }

  lemma Younger(gens: seq<int>, gens': seq<int>, n: int)
    requires Young(gens, n) && 0 <= n && Aged(gens, gens')
    ensures Young(gens', n + 1)
  {
  }
}
