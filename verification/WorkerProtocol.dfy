/** The shutdown protocol of the worker: invokers, posters, the loop thread and a
    closing thread, interleaved at every critical section and at the unlocked
    accesses to `running`. */
module WorkerProtocol {

  /** A sync task lives on its invoker's stack, an async one on the heap. */
  datatype Task = Task(id: int, sync: bool)

  /** Where the loop thread is.  `last` marks the drain after the loop has ended. */
  datatype Pc =
    | Checking                          // about to read `running`
    | Draining(last: bool)              // about to lock and dequeue
    | Running(task: Task, last: bool)   // runs a task
    | Completing(task: Task, last: bool)// has run a sync task, about to set its done flag
    | Exited

  /** What an invoker is doing: waiting for its task, with the done flag, or
      running its function itself because the worker has been closed. */
  datatype Invoker = Waiting(done: bool) | Inline | Returned

  /** `locked` is true while the closing thread is inside its critical section.
      `enqueued` and `ran` record what was handed over and what has run so far,
      `inlined` whose functions have run in their callers. */
  datatype State = State(queue: seq<Task>, closed: bool, running: bool, locked: bool, pc: Pc,
                         invokers: map<int, Invoker>, enqueued: seq<Task>, ran: seq<Task>, inlined: set<int>)

  ghost predicate Init(s: State)
  {
    s == State([], false, true, false, Checking, map[], [], [], {})
  }

  datatype Step =
    | Invoke(id: int) | RunInline(id: int) | Return(id: int) | Post(id: int)
    | CloseBegin | CloseStop | CloseEnd
    | Check | Dequeue | RunTask | Complete

  predicate Unused(s: State, id: int)
  {
    id !in s.invokers && forall t | t in s.enqueued :: t.id != id
  }

  function Enqueue(s: State, t: Task): State
  {
    s.(queue := s.queue + [t], enqueued := s.enqueued + [t])
  }

  predicate Enabled(s: State, a: Step)
  {
    match a
    case Invoke(id) => !s.locked && Unused(s, id)
    case RunInline(id) => id in s.invokers && s.invokers[id] == Inline
    case Return(id) => !s.locked && id in s.invokers && s.invokers[id] == Waiting(true)
    case Post(id) => !s.locked && Unused(s, id)
    case CloseBegin => !s.locked && !s.closed
    case CloseStop => s.locked && s.running
    case CloseEnd => s.locked && !s.running
    case Check => s.pc.Checking?
    case Dequeue => !s.locked && s.pc.Draining?
    case RunTask => s.pc.Running?
    case Complete => !s.locked && s.pc.Completing?
  }

  function Next(s: State, a: Step): State
    requires Enabled(s, a)
  {
    match a
    case Invoke(id) =>
      if s.closed || !s.running then s.(invokers := s.invokers[id := Inline])
      else Enqueue(s, Task(id, true)).(invokers := s.invokers[id := Waiting(false)])
    case RunInline(id) => s.(invokers := s.invokers[id := Returned], inlined := s.inlined + {id})
    case Return(id) => s.(invokers := s.invokers[id := Returned])
    case Post(id) => if s.closed then s else Enqueue(s, Task(id, false))
    case CloseBegin => s.(closed := true, locked := true)
    case CloseStop => s.(running := false)
    case CloseEnd => s.(locked := false)
    case Check => s.(pc := Draining(!s.running))
    case Dequeue =>
      if s.queue == [] then s.(pc := if s.pc.last then Exited else Checking)
      else s.(queue := s.queue[1..], pc := Running(s.queue[0], s.pc.last))
    case RunTask =>
      s.(ran := s.ran + [s.pc.task],
         pc := if s.pc.task.sync then Completing(s.pc.task, s.pc.last) else Draining(s.pc.last))
    case Complete =>
      s.(invokers := s.invokers[s.pc.task.id := Waiting(true)], pc := Draining(s.pc.last))
  }

  ghost predicate Behavior(ss: seq<State>, steps: seq<Step>)
  {
    && |ss| == |steps| + 1 && Init(ss[0])
    && forall i | 0 <= i < |steps| :: Enabled(ss[i], steps[i]) && ss[i + 1] == Next(ss[i], steps[i])
  }

  // ----- what every step keeps -----

  /** A task the loop holds but has not run yet. */
  function InHand(s: State): seq<Task>
  {
    if s.pc.Running? then [s.pc.task] else []
  }

  predicate LastDrain(pc: Pc)
  {
    match pc
    case Checking => false
    case Draining(last) => last
    case Running(_, last) => last
    case Completing(_, last) => last
    case Exited => true
  }

  /** What the loop has run, the one in its hand and those still queued are,
      in this order, all that was ever enqueued. */
  ghost predicate Conserved(s: State)
  {
    s.enqueued == s.ran + InHand(s) + s.queue
  }

  ghost predicate DistinctIds(s: State)
  {
    && (forall i, j | 0 <= i < j < |s.enqueued| :: s.enqueued[i].id != s.enqueued[j].id)
    && (forall i | 0 <= i < |s.enqueued| && s.enqueued[i].sync :: s.enqueued[i].id in s.invokers)
    && (forall i | 0 <= i < |s.enqueued| && !s.enqueued[i].sync :: s.enqueued[i].id !in s.invokers)
  }

  ghost predicate Shutdown(s: State)
  {
    && (!s.running ==> s.closed) && (s.locked ==> s.closed)
    && (s.closed && !s.locked ==> !s.running)
    && (LastDrain(s.pc) ==> !s.running)
    && (s.pc.Exited? ==> s.queue == [])
  }

  /** The loop may still touch this sync task. */
  ghost predicate Live(s: State, t: Task)
  {
    t in s.queue || (s.pc.Running? && s.pc.task == t) || (s.pc.Completing? && s.pc.task == t)
  }

  /** A sync task is live exactly as long as its invoker waits for it. */
  ghost predicate StackSafe(s: State)
  {
    && (s.pc.Completing? ==> s.pc.task.sync && s.ran != [] && s.ran[|s.ran| - 1] == s.pc.task)
    && (forall i | 0 <= i < |s.enqueued| && s.enqueued[i].sync ::
          s.enqueued[i].id in s.invokers &&
          (Live(s, s.enqueued[i]) <==> s.invokers[s.enqueued[i].id] == Waiting(false)))
    && (forall id | id in s.invokers && s.invokers[id].Waiting? :: Task(id, true) in s.enqueued)
  }

  /** A function runs in its caller only once the worker is closed, and then was
      never handed over. */
  ghost predicate InlineSafe(s: State)
  {
    && s.inlined <= s.invokers.Keys
    && forall id | id in s.invokers ::
         match s.invokers[id]
         case Waiting(_) => id !in s.inlined
         case Inline => s.closed && id !in s.inlined && Task(id, true) !in s.enqueued
         case Returned => id in s.inlined <==> Task(id, true) !in s.enqueued
  }

  ghost predicate Inv(s: State)
  {
    Conserved(s) && DistinctIds(s) && Shutdown(s) && StackSafe(s) && InlineSafe(s)
  }

  lemma ConservedKept(s: State, a: Step)
    requires Conserved(s) && Enabled(s, a)
    ensures Conserved(Next(s, a))
  {
    if a.Dequeue? && s.queue != [] {
      assert s.queue == [s.queue[0]] + s.queue[1..];
    }
  }

  lemma ShutdownKept(s: State, a: Step)
    requires Shutdown(s) && Enabled(s, a)
    ensures Shutdown(Next(s, a))
  {
  }

  lemma DistinctIdsKept(s: State, a: Step)
    requires Inv(s) && Enabled(s, a)
    ensures DistinctIds(Next(s, a))
  {
    if a.Complete? {
      assert s.pc.task in s.enqueued;
    }
  }

  /** What the loop holds and what it has queued are tasks that were enqueued,
      in places of their own. */
  lemma Places(s: State, t: Task)
    requires Conserved(s) && DistinctIds(s)
    ensures t in s.queue ==> t in s.enqueued && t !in s.ran && !(s.pc.Running? && s.pc.task.id == t.id)
    ensures s.pc.Running? ==> s.pc.task in s.enqueued && s.pc.task !in s.ran
  {
    var n, h := |s.ran|, |InHand(s)|;
    forall i, j | 0 <= i < n && 0 <= j < |s.queue| ensures s.ran[i].id != s.queue[j].id {
      assert s.enqueued[i] == s.ran[i] && s.enqueued[n + h + j] == s.queue[j];
    }
    if s.pc.Running? {
      assert s.enqueued[n] == s.pc.task;
      forall i | 0 <= i < n ensures s.ran[i].id != s.pc.task.id {
        assert s.enqueued[i] == s.ran[i];
      }
      forall j | 0 <= j < |s.queue| ensures s.queue[j].id != s.pc.task.id {
        assert s.enqueued[n + 1 + j] == s.queue[j];
      }
    }
  }

  /** Live, for tasks that are identified by their position among all tasks. */
  lemma LiveAfter(s: State, a: Step, i: int)
    requires Inv(s) && Enabled(s, a) && 0 <= i < |s.enqueued| && s.enqueued[i].sync
    ensures var t := s.enqueued[i];
            Live(Next(s, a), t) <==> Live(s, t) && !(a.Complete? && s.pc.task == t)
  {
    var t := s.enqueued[i];
    Places(s, t);
    match a
    case Invoke(id) => assert t.id != id;
    case Post(id) => assert t.id != id;
    case Dequeue =>
      if s.queue != [] {
        assert s.queue == [s.queue[0]] + s.queue[1..];
      }
    case _ =>
  }

  lemma LiveKept(s: State, a: Step, i: int)
    requires Inv(s) && Enabled(s, a) && DistinctIds(Next(s, a))
    requires 0 <= i < |Next(s, a).enqueued| && Next(s, a).enqueued[i].sync
    ensures var s' := Next(s, a);
            Live(s', s'.enqueued[i]) <==> s'.invokers[s'.enqueued[i].id] == Waiting(false)
  {
    var s' := Next(s, a);
    var t := s'.enqueued[i];
    if i < |s.enqueued| {
      assert t == s.enqueued[i];
      LiveAfter(s, a, i);
      if a.Complete? && s.pc.task.id == t.id {
        var k :| 0 <= k < |s.enqueued| && s.enqueued[k] == s.pc.task;
        assert k == i;
      }
    } else {
      assert t in s'.queue;
    }
  }

  lemma StackSafeKept(s: State, a: Step)
    requires Inv(s) && Enabled(s, a)
    ensures StackSafe(Next(s, a))
  {
    var s' := Next(s, a);
    DistinctIdsKept(s, a);
    forall i | 0 <= i < |s'.enqueued| && s'.enqueued[i].sync
      ensures Live(s', s'.enqueued[i]) <==> s'.invokers[s'.enqueued[i].id] == Waiting(false)
    {
      LiveKept(s, a, i);
    }
  }

  lemma InlineSafeKept(s: State, a: Step)
    requires Inv(s) && Enabled(s, a)
    ensures InlineSafe(Next(s, a))
  {
    if a.Complete? {
      assert s.pc.task in s.enqueued;
    }
  }

  lemma InvKept(s: State, a: Step)
    requires Inv(s) && Enabled(s, a)
    ensures Inv(Next(s, a))
  {
    InlineSafeKept(s, a);
    ConservedKept(s, a);
    ShutdownKept(s, a);
    DistinctIdsKept(s, a);
    StackSafeKept(s, a);
  }

  lemma {:induction false} BehaviorSafe(ss: seq<State>, steps: seq<Step>, i: int)
    requires Behavior(ss, steps) && 0 <= i < |ss|
    ensures Inv(ss[i])
  {
    if i > 0 {
      BehaviorSafe(ss, steps, i - 1);
      assert Enabled(ss[i - 1], steps[i - 1]) && ss[i - 1 + 1] == Next(ss[i - 1], steps[i - 1]);
      InvKept(ss[i - 1], steps[i - 1]);
    }
  }

  // ----- what callers may rely on, in every interleaving -----

  /** Tasks run in the order they were enqueued, none twice; once the loop has
      exited every one of them has run and the queue is empty. */
  lemma RunOnceInOrder(ss: seq<State>, steps: seq<Step>, i: int)
    requires Behavior(ss, steps) && 0 <= i < |ss|
    ensures ss[i].ran <= ss[i].enqueued
    ensures forall p, q | 0 <= p < q < |ss[i].ran| :: ss[i].ran[p].id != ss[i].ran[q].id
    ensures ss[i].pc.Exited? ==> ss[i].ran == ss[i].enqueued && ss[i].queue == []
  {
    BehaviorSafe(ss, steps, i);
    var s := ss[i];
    assert Inv(s);
    assert forall p | 0 <= p < |s.ran| :: s.ran[p] == s.enqueued[p];
  }

  /** Whenever the loop is about to touch a sync task, its invoker is still inside
      invoke, so its stack frame still exists. */
  lemma NoUseAfterReturn(ss: seq<State>, steps: seq<Step>, i: int)
    requires Behavior(ss, steps) && 0 <= i < |ss|
    requires (ss[i].pc.Running? || ss[i].pc.Completing?) && ss[i].pc.task.sync
    ensures ss[i].pc.task.id in ss[i].invokers && ss[i].invokers[ss[i].pc.task.id] == Waiting(false)
  {
    BehaviorSafe(ss, steps, i);
    var s := ss[i];
    assert Inv(s);
    assert s.pc.task in s.enqueued;
    var k :| 0 <= k < |s.enqueued| && s.enqueued[k] == s.pc.task;
    assert Live(s, s.enqueued[k]);
  }

  /** When the loop has exited, every invoker still waiting has been released. */
  lemma NobodyLeftWaiting(ss: seq<State>, steps: seq<Step>, i: int, id: int)
    requires Behavior(ss, steps) && 0 <= i < |ss| && ss[i].pc.Exited? && id in ss[i].invokers
    ensures ss[i].invokers[id] != Waiting(false)
  {
    BehaviorSafe(ss, steps, i);
    var s := ss[i];
    assert Inv(s);
    if s.invokers[id].Waiting? {
      var k :| 0 <= k < |s.enqueued| && s.enqueued[k] == Task(id, true);
      assert !Live(s, s.enqueued[k]);
    }
  }

  /** An invoke returns when its function has run exactly once, on the loop or in
      the caller. */
  lemma InvokedOnce(ss: seq<State>, steps: seq<Step>, i: int, id: int)
    requires Behavior(ss, steps) && 0 <= i < |ss| && id in ss[i].invokers && ss[i].invokers[id] == Returned
    ensures Task(id, true) in ss[i].ran <==> id !in ss[i].inlined
  {
    BehaviorSafe(ss, steps, i);
    var s, t := ss[i], Task(id, true);
    assert Inv(s);
    if t in s.enqueued {
      var k :| 0 <= k < |s.enqueued| && s.enqueued[k] == t;
      assert !Live(s, s.enqueued[k]);
      assert s.enqueued == s.ran + InHand(s) + s.queue;
    }
  }

  /** The functions that are running: the loop's task and those in their callers. */
  ghost predicate Executing(s: State, id: int)
  {
    (s.pc.Running? && s.pc.task.id == id) || (id in s.invokers && s.invokers[id] == Inline)
  }

  /** Until the worker is closed, functions handed to it never overlap. */
  lemma OneAtATime(ss: seq<State>, steps: seq<Step>, i: int, p: int, q: int)
    requires Behavior(ss, steps) && 0 <= i < |ss| && Executing(ss[i], p) && Executing(ss[i], q) && p != q
    ensures ss[i].closed && ((p in ss[i].invokers && ss[i].invokers[p] == Inline)
                             || (q in ss[i].invokers && ss[i].invokers[q] == Inline))
  {
    BehaviorSafe(ss, steps, i);
    assert Inv(ss[i]);
  }

  /** Once it is closed they can: an invoker runs its function itself while the
      loop is still busy with the one before. */
  lemma ClosedOverlap() returns (ss: seq<State>, steps: seq<Step>)
    ensures Behavior(ss, steps) && |steps| == 7 && Executing(ss[7], 1) && Executing(ss[7], 2)
  {
    steps := [Post(1), Check, Dequeue, CloseBegin, CloseStop, CloseEnd, Invoke(2)];
    var s0 := State([], false, true, false, Checking, map[], [], [], {});
    var s1 := Next(s0, Post(1));
    var s2 := Next(s1, Check);
    var s3 := Next(s2, Dequeue);
    assert s3.pc == Running(Task(1, false), false);
    var s4 := Next(s3, CloseBegin);
    var s5 := Next(s4, CloseStop);
    var s6 := Next(s5, CloseEnd);
    var s7 := Next(s6, Invoke(2));
    ss := [s0, s1, s2, s3, s4, s5, s6, s7];
  }

  /** The step the loop thread takes next. */
  function LoopStep(s: State): Step
  {
    match s.pc
    case Checking => Check
    case Draining(_) => Dequeue
    case Running(_, _) => RunTask
    case _ => Complete
  }

  function Rank(pc: Pc): nat
  {
    match pc
    case Exited => 0
    case Checking => 2
    case Draining(last) => if last then 1 else 3
    case Completing(_, last) => if last then 2 else 4
    case Running(_, last) => if last then 3 else 5
  }

  /** Once close has released the mutex, the loop thread's own steps bring it to
      its exit, whatever the queue holds. */
  ghost function Finish(s: State): (r: State)
    requires Inv(s) && s.closed && !s.locked
    ensures Inv(r) && r.pc.Exited? && r.enqueued == s.enqueued
    ensures r.ran == s.enqueued
    ensures forall id | id in s.invokers && s.invokers[id].Waiting? ::
              id in r.invokers && r.invokers[id] == Waiting(true)
    decreases 4 * |s.queue| + Rank(s.pc)
  {
    if s.pc.Exited? then
      assert forall id | id in s.invokers && s.invokers[id].Waiting? ::
          Task(id, true) in s.enqueued && !Live(s, Task(id, true));
      s
    else
      InvKept(s, LoopStep(s));
      Finish(Next(s, LoopStep(s)))
  }

  /** How far the loop is from its exit. */
  function Distance(s: State): nat
  {
    4 * |s.queue| + Rank(s.pc)
  }

  predicate ByLoop(a: Step)
  {
    a.Check? || a.Dequeue? || a.RunTask? || a.Complete?
  }

  /** After close, whatever step any thread takes: the loop's bring its exit nearer
      and the others do not take it further away. Until then the loop can step. */
  lemma Approaches(s: State, a: Step)
    requires Shutdown(s) && s.closed && !s.locked && Enabled(s, a)
    ensures Next(s, a).closed && !Next(s, a).locked
    ensures Distance(Next(s, a)) <= Distance(s) - (if ByLoop(a) then 1 else 0)
    ensures !s.pc.Exited? ==> Enabled(s, LoopStep(s)) && ByLoop(LoopStep(s))
  {
  }

  function LoopSteps(steps: seq<Step>, i: int, j: int): (n: int)
    requires 0 <= i <= j <= |steps|
    ensures 0 <= n <= j - i
    decreases j - i
  {
    if i == j then 0 else LoopSteps(steps, i, j - 1) + if ByLoop(steps[j - 1]) then 1 else 0
  }

  /** In every interleaving the loop takes no more steps after close than it was
      away from its exit; if it has taken that many it has exited, and all that
      was ever handed over has run. */
  lemma LoopExits(ss: seq<State>, steps: seq<Step>, i: int, j: int)
    requires Behavior(ss, steps) && 0 <= i <= j < |ss| && ss[i].closed && !ss[i].locked
    ensures ss[j].closed && !ss[j].locked
    ensures LoopSteps(steps, i, j) + Distance(ss[j]) <= Distance(ss[i])
    ensures LoopSteps(steps, i, j) == Distance(ss[i]) ==> ss[j].pc.Exited? && ss[j].ran == ss[j].enqueued
  {
    LoopNears(ss, steps, i, j);
    if LoopSteps(steps, i, j) == Distance(ss[i]) {
      RunOnceInOrder(ss, steps, j);
    }
  }

  lemma {:induction false} LoopNears(ss: seq<State>, steps: seq<Step>, i: int, j: int)
    requires Behavior(ss, steps) && 0 <= i <= j < |ss| && ss[i].closed && !ss[i].locked
    ensures ss[j].closed && !ss[j].locked
    ensures LoopSteps(steps, i, j) + Distance(ss[j]) <= Distance(ss[i])
    decreases j
  {
    if i < j {
      LoopNears(ss, steps, i, j - 1);
      StepAt(ss, steps, j - 1);
      Approaches(ss[j - 1], steps[j - 1]);
    }
  }

  lemma StepAt(ss: seq<State>, steps: seq<Step>, i: int)
    requires Behavior(ss, steps) && 0 <= i < |steps|
    ensures Shutdown(ss[i]) && Enabled(ss[i], steps[i]) && ss[i + 1] == Next(ss[i], steps[i])
  {
    BehaviorSafe(ss, steps, i);
  }

  // ----- progress while the worker is open -----

  /** How many steps of the loop it takes at most until the task at position k has
      run and, if it is sync, been reported: three for every task up to it. */
  function Work(s: State, k: int): int
  {
    var m := k + 1 - |s.ran|;
    if m < 0 then 0
    else
      match s.pc
      case Checking => if m == 0 then 0 else 3 * m + 1
      case Draining(_) => 3 * m
      case Running(_, _) => if m == 0 then 0 else 3 * m - 1
      case Completing(_, _) => 3 * m + 1
      case Exited => 0
  }

  lemma WorkDone(s: State, a: Step, k: int)
    requires Inv(s) && Enabled(s, a) && 0 <= k < |s.enqueued|
    ensures s.enqueued <= Next(s, a).enqueued
    ensures ByLoop(a) && Work(s, k) > 0 ==> Work(Next(s, a), k) < Work(s, k)
    ensures !ByLoop(a) || Work(s, k) == 0 ==> Work(Next(s, a), k) <= Work(s, k)
  {
  }

  lemma {:induction false} LoopWorks(ss: seq<State>, steps: seq<Step>, i: int, j: int, k: int)
    requires Behavior(ss, steps) && 0 <= i <= j < |ss| && 0 <= k < |ss[i].enqueued|
    ensures ss[i].enqueued <= ss[j].enqueued
    ensures Work(ss[j], k) == 0 || Work(ss[j], k) + LoopSteps(steps, i, j) <= Work(ss[i], k)
    decreases j
  {
    if i < j {
      LoopWorks(ss, steps, i, j - 1, k);
      WorkAt(ss, steps, j - 1, k);
    }
  }

  lemma WorkAt(ss: seq<State>, steps: seq<Step>, i: int, k: int)
    requires Behavior(ss, steps) && 0 <= i < |steps| && 0 <= k < |ss[i].enqueued|
    ensures ss[i].enqueued <= ss[i + 1].enqueued
    ensures ByLoop(steps[i]) && Work(ss[i], k) > 0 ==> Work(ss[i + 1], k) < Work(ss[i], k)
    ensures !ByLoop(steps[i]) || Work(ss[i], k) == 0 ==> Work(ss[i + 1], k) <= Work(ss[i], k)
  {
    StepAt(ss, steps, i);
    BehaviorSafe(ss, steps, i);
    WorkDone(ss[i], steps[i], k);
  }

  lemma WorkBounds(s: State, k: int)
    ensures 0 <= Work(s, k) && (Work(s, k) > 0 ==> Work(s, k) <= 3 * (k + 1 - |s.ran|) + 1)
  {
  }

  lemma NothingLeft(s: State, k: int)
    requires Inv(s) && 0 <= k < |s.enqueued| && Work(s, k) == 0
    ensures k < |s.ran| && s.ran[k] == s.enqueued[k]
    ensures s.enqueued[k].sync ==> s.enqueued[k].id in s.invokers && s.invokers[s.enqueued[k].id] != Waiting(false)
  {
    var t := s.enqueued[k];
    assert k < |s.ran| && s.ran[k] == t;
    Places(s, t);
    if s.pc.Completing? {
      assert s.ran[|s.ran| - 1] == s.enqueued[|s.ran| - 1];
    }
    assert !Live(s, t);
  }

  /** In every interleaving, closed or not: once the loop has taken more than three
      steps for every task up to the one at position k that had not run yet, that
      task has run, and its invoker, if it has one, no longer waits. */
  lemma EveryTaskRuns(ss: seq<State>, steps: seq<Step>, i: int, j: int, k: int)
    requires Behavior(ss, steps) && 0 <= i <= j < |ss| && 0 <= k < |ss[i].enqueued|
    requires LoopSteps(steps, i, j) > 3 * (k + 1 - |ss[i].ran|)
    ensures k < |ss[j].ran| && ss[j].ran[k] == ss[i].enqueued[k]
    ensures var t := ss[i].enqueued[k];
            t.sync ==> t.id in ss[j].invokers && ss[j].invokers[t.id] != Waiting(false)
  {
    LoopWorks(ss, steps, i, j, k);
    WorkBounds(ss[i], k);
    WorkBounds(ss[j], k);
    assert Work(ss[j], k) == 0;
    BehaviorSafe(ss, steps, j);
    NothingLeft(ss[j], k);
  }

  /** What is handed to a worker that is not closed runs within that many steps,
      in its turn; an invoke that finds the worker closed is left to its caller. */
  lemma HandedOverRuns(ss: seq<State>, steps: seq<Step>, i: int, j: int, id: int)
    requires Behavior(ss, steps) && 0 <= i < j < |ss| && (steps[i] == Post(id) || steps[i] == Invoke(id))
    ensures ss[i].closed ==> ss[i + 1].enqueued == ss[i].enqueued
    ensures steps[i] == Invoke(id) && ss[i].closed ==>
              id in ss[i + 1].invokers && ss[i + 1].invokers[id] == Inline && Enabled(ss[i + 1], RunInline(id))
    ensures var k := |ss[i].enqueued|;
            !ss[i].closed && LoopSteps(steps, i + 1, j) > 3 * (k + 1 - |ss[i].ran|) ==>
              && k < |ss[j].ran| && ss[j].ran[k] == Task(id, steps[i].Invoke?)
              && (steps[i].Invoke? ==> id in ss[j].invokers && ss[j].invokers[id] != Waiting(false))
  {
    StepAt(ss, steps, i);
    var k := |ss[i].enqueued|;
    if !ss[i].closed && LoopSteps(steps, i + 1, j) > 3 * (k + 1 - |ss[i].ran|) {
      EveryTaskRuns(ss, steps, i + 1, j, k);
    }
  }

  /** Only a close in progress holds the loop up, and only its exit ends it. */
  lemma LoopCanStep(s: State)
    requires Inv(s)
    ensures !s.locked && !s.pc.Exited? ==> Enabled(s, LoopStep(s)) && ByLoop(LoopStep(s))
    ensures s.locked ==> Enabled(s, if s.running then CloseStop else CloseEnd)
  {
  }
}
