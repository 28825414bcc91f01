/**
 The task pipeline of the event loop: posted tasks wait in `tasks`, are moved
 to `process_tasks_` by swapping the two queues, and are started from there;
 due poll and timer callbacks are snapshotted into queues of their own.
 Callbacks may post tasks, remove descriptors and timers, run a nested loop
 (`Waiter::wait`) or drain the tasks in place (a synchronous `invoke` on the
 own thread). Removing an object erases it and then posts the task that deletes
 it, in two locked sections.

 The call stack is explicit: one activation per live `exec` or `processTasks`,
 with the place it has reached and whether a callback it started is running.
 What the operating system and other threads decide is the event's choice.
 */
module EventLoopSpec {
  datatype Task = Plain(id: nat) | Delete(obj: nat)

  datatype Pc =
    | StartTasks | StartPolls | StartTimers   // a nested exec first finishes the snapshot it interrupted
    | LoopTasks | OverloadTasks | LoopPolls | LoopTimers
    | FinishedEvent | FinishTasks
    | SyncFirst | SyncSecond                  // processTasks, before and after its swap

  /** `running` says that the activation on top has a callback in progress; those below always do. */
  datatype Loop = Loop(
    tasks: seq<Task>, processTasks: seq<Task>, polls: seq<nat>, timers: seq<nat>,
    stack: seq<Pc>, running: bool, finished: bool,
    registered: set<nat>, erased: set<nat>, objects: nat, freed: seq<nat>, usedAfterFree: bool,
    accepted: seq<Task>, started: seq<Task>)

  /** What one pass over the locked section finds: the quit bit, the wake flag, ready descriptors, due timers. */
  datatype Choice = Choice(quit: bool, awake: bool, polls: seq<nat>, timers: seq<nat>)

  datatype Event = Post(id: nat) | Register | Erase(obj: nat) | PostDelete(obj: nat) | Call | Return | Wait | Sync | Advance(choice: Choice)

  const QUEUE_TASKS_OVERLOAD_SIZE := 128

  /** An outermost exec, in its startedEvent. */
  const START := Loop([], [], [], [], [StartTasks], true, false, {}, {}, 0, [], false, [], [])

  predicate TaskPc(pc: Pc) {
    pc in {StartTasks, LoopTasks, OverloadTasks, FinishTasks, SyncFirst, SyncSecond}
  }

  predicate ShutdownPc(pc: Pc) {
    pc in {FinishTasks, SyncFirst, SyncSecond}
  }

  predicate PollPc(pc: Pc) { pc == StartPolls || pc == LoopPolls }

  predicate TimerPc(pc: Pc) { pc == StartTimers || pc == LoopTimers }

  function Top(s: Loop): Pc
    requires s.stack != []
  {
    s.stack[|s.stack| - 1]
  }

  /** The activation on top goes on to `pc`. */
  function To(s: Loop, pc: Pc): Loop
    requires s.stack != []
  {
    s.(stack := s.stack[..|s.stack| - 1] + [pc])
  }

  /** The activation on top returns into the callback that started it. */
  function Pop(s: Loop): Loop
    requires s.stack != []
  {
    s.(stack := s.stack[..|s.stack| - 1], running := true)
  }

  function Push(s: Loop, pc: Pc): Loop {
    s.(stack := s.stack + [pc], running := false)
  }

  function Swap(s: Loop): Loop {
    s.(tasks := s.processTasks, processTasks := s.tasks)
  }

  predicate Drained(s: Loop, pc: Pc) {
    && (TaskPc(pc) ==> s.processTasks == [])
    && (PollPc(pc) ==> s.polls == [])
    && (TimerPc(pc) ==> s.timers == [])
  }

  predicate InCallback(s: Loop) { s.stack != [] && s.running }

  predicate InLoop(s: Loop) { s.stack != [] && !s.running }

  predicate Enabled(s: Loop, e: Event) {
    match e
    case Post(_) => true
    case Register => true
    case Erase(o) => o in s.registered
    case PostDelete(o) => o in s.erased
    case Call => InLoop(s) && !Drained(s, Top(s))
    case Return => InCallback(s)
    case Wait => InCallback(s) && !s.finished
    case Sync => InCallback(s)
    case Advance(c) =>
      && InLoop(s) && Drained(s, Top(s))
      && (forall o :: o in c.polls ==> o < s.objects && o !in s.freed)
      && (forall o :: o in c.timers ==> o in s.registered)
  }

  /** `invokeTask`: refused once the loop has finished. */
  function Invoke(s: Loop, t: Task): Loop {
    if s.finished then s else s.(tasks := s.tasks + [t], accepted := s.accepted + [t])
  }

  function Step(s: Loop, e: Event): Loop
    requires Enabled(s, e)
  {
    match e
    case Post(id) => Invoke(s, Plain(id))
    case Register => s.(registered := s.registered + {s.objects}, objects := s.objects + 1)
    case Erase(o) => s.(registered := s.registered - {o}, erased := s.erased + {o})
    case PostDelete(o) =>
      var r := s.(erased := s.erased - {o});
      if s.finished then r.(freed := s.freed + [o]) else Invoke(r, Delete(o))
    case Call => StartNext(s)
    case Return => s.(running := false)
    case Wait => Push(s, if s.processTasks != [] then StartTasks else if s.polls != [] then StartPolls
                         else if s.timers != [] then StartTimers else StartTasks)
    case Sync => Push(s, SyncFirst)
    case Advance(c) => Go(s, c)
  }

  function StartNext(s: Loop): Loop
    requires Enabled(s, Call)
  {
    var r := s.(running := true);
    if TaskPc(Top(s)) then
      var t := s.processTasks[0];
      r.(processTasks := s.processTasks[1..], started := s.started + [t],
         freed := if t.Delete? then s.freed + [t.obj] else s.freed)
    else if PollPc(Top(s)) then
      r.(polls := s.polls[1..], usedAfterFree := s.usedAfterFree || s.polls[0] in s.freed)
    else
      r.(timers := s.timers[1..], usedAfterFree := s.usedAfterFree || s.timers[0] in s.freed)
  }

  /** What the top activation does once its queue is drained. */
  datatype Move = SwapTo(pc: Pc) | GoTo(pc: Pc) | SnapshotPolls | SnapshotTimers | Exit

  function NextMove(s: Loop, c: Choice): Move
    requires s.stack != []
  {
    match Top(s)
    case StartTasks => SwapTo(LoopTasks)
    case StartPolls => SwapTo(LoopTasks)
    case StartTimers => SwapTo(LoopTasks)
    case LoopTasks =>
      if s.tasks != [] then
        SwapTo(if !c.awake || |s.tasks| <= QUEUE_TASKS_OVERLOAD_SIZE then LoopTasks else OverloadTasks)
      else Decide(s, c)
    case OverloadTasks => Decide(s, c)
    case LoopPolls => GoTo(LoopTasks)
    case LoopTimers => GoTo(LoopTasks)
    case FinishedEvent => SwapTo(FinishTasks)
    case FinishTasks => Exit
    case SyncFirst => SwapTo(SyncSecond)
    case SyncSecond => Exit
  }

  /** The rest of the locked section: leave the loop, or snapshot what is due. */
  function Decide(s: Loop, c: Choice): Move {
    if c.quit then (if |s.stack| == 1 then GoTo(FinishedEvent) else Exit)
    else if c.polls != [] then SnapshotPolls
    else if c.timers != [] then SnapshotTimers
    else GoTo(LoopTasks)
  }

  function Go(s: Loop, c: Choice): Loop
    requires Enabled(s, Advance(c))
  {
    Apply(s, c, NextMove(s, c))
  }

  function Apply(s: Loop, c: Choice, m: Move): Loop
    requires s.stack != []
  {
    match m
    case SwapTo(pc) => To(Swap(s), pc).(finished := s.finished || pc == FinishTasks)
    case GoTo(pc) => To(s, pc).(running := pc == FinishedEvent)
    case SnapshotPolls => To(s, LoopPolls).(polls := s.polls + c.polls)
    case SnapshotTimers => To(s, LoopTimers).(timers := s.timers + c.timers)
    case Exit => Pop(s)
  }

  // ---- Invariants ----

  /** The outermost activation is an exec, which alone goes through shutdown. */
  ghost predicate Shape(stack: seq<Pc>, finished: bool) {
    && (stack == [] ==> finished)
    && (stack != [] ==> stack[0] !in {SyncFirst, SyncSecond} && (finished <==> stack[0] == FinishTasks))
    && (forall i :: 0 < i < |stack| ==> stack[i] !in {FinishedEvent, FinishTasks})
    && (finished ==> forall pc :: pc in stack ==> ShutdownPc(pc))
  }

  /** Tasks taken for processing belong to the activation on top; a finished loop has none waiting. */
  ghost predicate Owned(s: Loop) {
    && (s.finished ==> s.tasks == [])
    && (s.processTasks != [] ==> s.stack != [] && TaskPc(Top(s)))
  }

  function Pending(s: Loop): seq<Task> { s.processTasks + s.tasks }

  ghost predicate Fifo(s: Loop) { s.started + Pending(s) == s.accepted }

  /** In how many places object o is: registered, on the way to its delete task, waiting for it, or freed. */
  function Places(s: Loop, o: nat): nat {
    (if o in s.registered then 1 else 0) + (if o in s.erased then 1 else 0)
    + multiset(Pending(s))[Delete(o)] + multiset(s.freed)[o]
  }

  /** Every object ever registered is in exactly one place. */
  ghost predicate Conserved(s: Loop) {
    forall o: nat :: Places(s, o) == if o < s.objects then 1 else 0
  }

  ghost predicate Inv(s: Loop) {
    Shape(s.stack, s.finished) && Owned(s) && Fifo(s) && Conserved(s)
  }

  /** A non-empty snapshot belongs to the activation on top, and holds nothing freed. */
  ghost predicate SnapshotsSafe(s: Loop) {
    && (s.polls != [] ==> s.stack != [] && PollPc(Top(s)))
    && (s.timers != [] ==> s.stack != [] && TimerPc(Top(s)))
    && (forall o :: o in s.polls || o in s.timers ==> o < s.objects && o !in s.freed)
    && !s.usedAfterFree
  }

  /** No synchronous invoke on the own thread while a snapshot is pending. */
  ghost predicate Disciplined(s: Loop, e: Event) {
    e.Sync? ==> s.polls == [] && s.timers == []
  }

  // ---- Steps keep the invariants ----

  lemma ShapeTo(stack: seq<Pc>, finished: bool, pc: Pc, done: bool)
    requires Shape(stack, finished) && stack != []
    requires if |stack| == 1 then pc !in {SyncFirst, SyncSecond} && (done <==> pc == FinishTasks)
             else pc !in {FinishedEvent, FinishTasks} && done == finished
    requires done ==> ShutdownPc(pc)
    ensures Shape(stack[..|stack| - 1] + [pc], done)
  {
  }

  lemma ShapePush(stack: seq<Pc>, finished: bool, pc: Pc)
    requires Shape(stack, finished) && stack != [] && pc !in {FinishedEvent, FinishTasks} && (finished ==> ShutdownPc(pc))
    ensures Shape(stack + [pc], finished)
  {
  }

  lemma ShapePop(stack: seq<Pc>, finished: bool)
    requires Shape(stack, finished) && stack != [] && (|stack| == 1 ==> stack[0] == FinishTasks)
    ensures Shape(stack[..|stack| - 1], finished)
  {
  }

  /** Which moves can be made from which place. */
  lemma MoveFits(s: Loop, c: Choice)
    requires Inv(s) && Enabled(s, Advance(c))
    ensures var m := NextMove(s, c);
            && s.processTasks == []
            && (m.SwapTo? ==> TaskPc(m.pc) && (m.pc == FinishTasks <==> Top(s) == FinishedEvent)
                              && (m.pc == SyncSecond <==> Top(s) == SyncFirst)
                              && m.pc !in {StartTasks, SyncFirst, FinishedEvent})
            && (m.GoTo? ==> m.pc == LoopTasks || (m.pc == FinishedEvent && |s.stack| == 1))
            && (m.Exit? ==> |s.stack| == 1 ==> Top(s) == FinishTasks)
            && (s.finished && m.SwapTo? ==> m.pc == SyncSecond)
            && (!m.SwapTo? && !m.Exit? ==> !s.finished && Top(s) !in {FinishedEvent, SyncFirst, SyncSecond})
  {
    assert s.finished ==> ShutdownPc(Top(s)) by { assert Top(s) in s.stack; }
  }

  lemma AdvanceKeepsShape(s: Loop, c: Choice)
    requires Inv(s) && Enabled(s, Advance(c))
    ensures var d := Go(s, c); Shape(d.stack, d.finished) && Owned(d)
  {
    MoveFits(s, c);
    var m := NextMove(s, c);
    assert s.stack[|s.stack| - 1] == Top(s);
    assert s.finished ==> ShutdownPc(Top(s));
    hide NextMove;
    match m
    case SwapTo(pc) => ShapeTo(s.stack, s.finished, pc, s.finished || pc == FinishTasks);
    case GoTo(pc) => ShapeTo(s.stack, s.finished, pc, s.finished);
    case SnapshotPolls => ShapeTo(s.stack, s.finished, LoopPolls, s.finished);
    case SnapshotTimers => ShapeTo(s.stack, s.finished, LoopTimers, s.finished);
    case Exit => ShapePop(s.stack, s.finished);
  }

  lemma ConservedIfSame(s: Loop, d: Loop)
    requires Conserved(s) && Pending(d) == Pending(s)
    requires d.registered == s.registered && d.erased == s.erased && d.freed == s.freed && d.objects == s.objects
    ensures Conserved(d)
  {
    forall o: nat
      ensures Places(d, o) == if o < d.objects then 1 else 0
    {
      assert Places(s, o) == if o < s.objects then 1 else 0;
    }
  }

  lemma AdvanceKeepsQueues(s: Loop, c: Choice)
    requires Inv(s) && Enabled(s, Advance(c))
    ensures Fifo(Go(s, c)) && Conserved(Go(s, c))
  {
    MoveFits(s, c);
    var d := Go(s, c);
    hide NextMove;
    assert Pending(d) == Pending(s);
    ConservedIfSame(s, d);
  }

  lemma AdvanceKeeps(s: Loop, c: Choice)
    requires Inv(s) && Enabled(s, Advance(c))
    ensures Inv(Step(s, Advance(c)))
  {
    AdvanceKeepsShape(s, c);
    AdvanceKeepsQueues(s, c);
    hide Go, Fifo, Conserved, Shape, Owned;
  }

  lemma InvokeKeeps(s: Loop, t: Task)
    requires Shape(s.stack, s.finished) && Owned(s) && Fifo(s)
    ensures var d := Invoke(s, t);
            Shape(d.stack, d.finished) && Owned(d) && Fifo(d)
  {
    assert s.started + (s.processTasks + (s.tasks + [t])) == s.started + (s.processTasks + s.tasks) + [t];
  }

  lemma PostKeeps(s: Loop, id: nat)
    requires Inv(s)
    ensures Inv(Step(s, Post(id)))
  {
    var d := Step(s, Post(id));
    InvokeKeeps(s, Plain(id));
    hide Fifo, Shape, Owned;
    assert s.finished || multiset(Pending(d)) == multiset(Pending(s)) + multiset{Plain(id)};
    forall o: nat
      ensures Places(d, o) == if o < d.objects then 1 else 0
    {
      assert Places(s, o) == if o < s.objects then 1 else 0;
    }
  }

  /** Object x moves from one place to another. */
  lemma ConservedIfMoved(s: Loop, d: Loop, x: nat)
    requires Conserved(s) && x in s.erased && d.erased == s.erased - {x}
    requires d.registered == s.registered && d.objects == s.objects
    requires || (Pending(d) == Pending(s) && d.freed == s.freed + [x])
             || (Pending(d) == Pending(s) + [Delete(x)] && d.freed == s.freed)
    ensures Conserved(d)
  {
    forall o: nat
      ensures Places(d, o) == if o < d.objects then 1 else 0
    {
      assert Places(s, o) == if o < s.objects then 1 else 0;
    }
  }

  lemma EraseKeeps(s: Loop, x: nat)
    requires Inv(s) && Enabled(s, Erase(x))
    ensures Inv(Step(s, Erase(x)))
  {
    var d := Step(s, Erase(x));
    assert Pending(d) == Pending(s);
    hide Shape, Owned, Pending, Conserved;
    ConservedIfErased(s, d, x);
  }

  lemma ConservedIfErased(s: Loop, d: Loop, x: nat)
    requires Conserved(s) && x in s.registered && Pending(d) == Pending(s)
    requires d.registered == s.registered - {x} && d.erased == s.erased + {x} && d.freed == s.freed && d.objects == s.objects
    ensures Conserved(d)
  {
    hide Pending;
    assert Places(s, x) <= 1;
    forall o: nat
      ensures Places(d, o) == if o < d.objects then 1 else 0
    {
      assert Places(s, o) == if o < s.objects then 1 else 0;
    }
  }

  lemma PostDeleteKeeps(s: Loop, x: nat)
    requires Inv(s) && Enabled(s, PostDelete(x))
    ensures Inv(Step(s, PostDelete(x)))
  {
    var d := Step(s, PostDelete(x));
    InvokeKeeps(s.(erased := s.erased - {x}), Delete(x));
    assert !s.finished ==> Pending(d) == Pending(s) + [Delete(x)];
    ConservedIfMoved(s, d, x);
    hide Shape, Conserved;
  }

  lemma RegisterKeeps(s: Loop)
    requires Inv(s)
    ensures Inv(Step(s, Register))
  {
    var d := Step(s, Register);
    hide Shape;
    assert Pending(d) == Pending(s);
    forall o: nat
      ensures Places(d, o) == if o < d.objects then 1 else 0
    {
      assert Places(s, o) == if o < s.objects then 1 else 0;
    }
  }

  /** Starting task t takes it off the queues; if it is a delete task, its object moves to the freed ones. */
  lemma ConservedIfStarted(s: Loop, d: Loop, t: Task)
    requires Conserved(s) && Pending(s) == [t] + Pending(d)
    requires d.registered == s.registered && d.erased == s.erased && d.objects == s.objects
    requires d.freed == if t.Delete? then s.freed + [t.obj] else s.freed
    ensures Conserved(d)
  {
    assert multiset(Pending(s)) == multiset{t} + multiset(Pending(d));
    forall o: nat
      ensures Places(d, o) == if o < d.objects then 1 else 0
    {
      assert Places(s, o) == if o < s.objects then 1 else 0;
    }
  }

  lemma CallTaskKeepsQueues(s: Loop)
    requires Fifo(s) && Conserved(s) && Enabled(s, Call) && TaskPc(Top(s))
    ensures Fifo(StartNext(s)) && Conserved(StartNext(s))
  {
    var d := StartNext(s);
    var t := s.processTasks[0];
    assert Pending(s) == [t] + Pending(d);
    assert d.started == s.started + [t];
    assert s.started + ([t] + Pending(d)) == s.started + [t] + Pending(d);
    hide Pending, StartNext;
    ConservedIfStarted(s, d, t);
  }

  lemma CallKeeps(s: Loop)
    requires Inv(s) && Enabled(s, Call)
    ensures Inv(Step(s, Call))
  {
    var d := StartNext(s);
    assert d.stack == s.stack && d.finished == s.finished && Owned(d);
    if TaskPc(Top(s)) {
      CallTaskKeepsQueues(s);
    } else {
      assert Pending(d) == Pending(s) && d.started == s.started && d.accepted == s.accepted;
      hide Pending, StartNext;
      ConservedIfSame(s, d);
    }
    hide StartNext, Shape, Owned, Fifo, Conserved;
  }

  lemma StackKeeps(s: Loop, e: Event)
    requires Inv(s) && Enabled(s, e) && (e.Return? || e.Wait? || e.Sync?)
    ensures Inv(Step(s, e))
  {
    var d := Step(s, e);
    ConservedIfSame(s, d);
    if !e.Return? { ShapePush(s.stack, s.finished, Top(d)); }
    hide Shape, Conserved;
  }

  lemma StepKeeps(s: Loop, e: Event)
    requires Inv(s) && Enabled(s, e)
    ensures Inv(Step(s, e))
  {
    match e
    case Post(id) => PostKeeps(s, id);
    case Register => RegisterKeeps(s);
    case Erase(o) => EraseKeeps(s, o);
    case PostDelete(o) => PostDeleteKeeps(s, o);
    case Call => CallKeeps(s);
    case Advance(c) => AdvanceKeeps(s, c);
    case _ => StackKeeps(s, e);
  }

  /** A freed object is not registered, nor on the way to its delete task or waiting for it. */
  lemma FreedOnce(s: Loop, o: nat)
    requires Conserved(s)
    ensures o in s.freed ==> o !in s.registered && o !in s.erased && Delete(o) !in Pending(s) && multiset(s.freed)[o] == 1
  {
    assert Places(s, o) <= 1;
    assert o in s.freed ==> o in multiset(s.freed);
    assert Delete(o) in Pending(s) ==> Delete(o) in multiset(Pending(s));
  }

  lemma AdvanceKeepsSnapshots(s: Loop, c: Choice)
    requires Inv(s) && SnapshotsSafe(s) && Enabled(s, Advance(c))
    ensures SnapshotsSafe(Go(s, c))
  {
    MoveFits(s, c);
    DueTimersLive(s, c);
    hide Inv, NextMove, Shape, Conserved, Fifo;
    var m := NextMove(s, c);
    var d := Apply(s, c, m);
    assert s.polls == [] && s.timers == [];
    assert d.stack != [] && m != Exit ==> Top(d) == d.stack[|s.stack| - 1];
  }

  lemma DueTimersLive(s: Loop, c: Choice)
    requires Conserved(s) && Enabled(s, Advance(c))
    ensures forall o :: o in c.timers ==> o < s.objects && o !in s.freed
  {
    hide Top, Drained, Pending;
    forall o | o in c.timers
      ensures o < s.objects && o !in s.freed
    {
      assert Places(s, o) == if o < s.objects then 1 else 0;
    }
  }

  lemma FinishedHasNoSnapshot(s: Loop)
    requires Shape(s.stack, s.finished) && SnapshotsSafe(s)
    ensures s.finished ==> s.polls == [] && s.timers == []
  {
    if s.finished && s.stack != [] { assert ShutdownPc(Top(s)); }
  }

  lemma CallKeepsSnapshots(s: Loop)
    requires SnapshotsSafe(s) && Enabled(s, Call)
    ensures SnapshotsSafe(StartNext(s))
  {
    var d := StartNext(s);
    assert Top(d) == Top(s);
    if PollPc(Top(s)) { assert s.polls[0] in s.polls; }
    if TimerPc(Top(s)) { assert s.timers[0] in s.timers; }
  }

  lemma SnapshotsKept(s: Loop, e: Event)
    requires Inv(s) && SnapshotsSafe(s) && Enabled(s, e) && Disciplined(s, e)
    ensures SnapshotsSafe(Step(s, e))
  {
    FinishedHasNoSnapshot(s);
    match e
    case Advance(c) => AdvanceKeepsSnapshots(s, c); hide *;
    case Call => CallKeepsSnapshots(s); hide *;
    case Wait => assert Top(Step(s, e)) == Step(s, e).stack[|s.stack|];
    case Sync => hide StartNext, Go;
    case _ =>
  }

  /** Both invariants over one event. */
  lemma EventKeeps(s: Loop, e: Event)
    requires Inv(s) && Enabled(s, e)
    ensures Inv(Step(s, e))
    ensures SnapshotsSafe(s) && Disciplined(s, e) ==> SnapshotsSafe(Step(s, e))
  {
    hide Inv, SnapshotsSafe, Step, Enabled, Disciplined;
    StepKeeps(s, e);
    if SnapshotsSafe(s) && Disciplined(s, e) { SnapshotsKept(s, e); }
  }

  // ---- Runs ----

  ghost predicate IsRun(s: Loop, es: seq<Event>)
    decreases |es|
  {
    es == [] || (Enabled(s, es[0]) && IsRun(Step(s, es[0]), es[1..]))
  }

  ghost function Run(s: Loop, es: seq<Event>): Loop
    requires IsRun(s, es)
    decreases |es|
  {
    if es == [] then s else Run(Step(s, es[0]), es[1..])
  }

  ghost predicate IsDisciplined(s: Loop, es: seq<Event>)
    requires IsRun(s, es)
    decreases |es|
  {
    es == [] || (Disciplined(s, es[0]) && IsDisciplined(Step(s, es[0]), es[1..]))
  }

  lemma {:induction false} RunKeeps(s: Loop, es: seq<Event>)
    requires IsRun(s, es) && Inv(s)
    ensures Inv(Run(s, es))
    ensures SnapshotsSafe(s) && IsDisciplined(s, es) ==> SnapshotsSafe(Run(s, es))
    decreases |es|
  {
    hide Inv, SnapshotsSafe, Step, Enabled;
    if es != [] {
      EventKeeps(s, es[0]);
      RunKeeps(Step(s, es[0]), es[1..]);
    }
  }

  lemma StartIsOk()
    ensures Inv(START) && SnapshotsSafe(START)
  {
    assert Pending(START) == [];
  }

  /**
   The two queues are one first-in first-out queue, whatever the callbacks do: the tasks started so
   far and the tasks still queued are exactly the accepted ones in acceptance order, and when the
   outermost loop has returned every accepted task has been started.
   */
  lemma TasksStartInOrder(es: seq<Event>)
    requires IsRun(START, es)
    ensures var s := Run(START, es);
            && s.accepted == s.started + s.processTasks + s.tasks
            && (s.stack == [] ==> s.started == s.accepted)
  {
    StartIsOk();
    RunKeeps(START, es);
    var s := Run(START, es);
    hide Run;
    assert s.started + Pending(s) == s.started + s.processTasks + s.tasks;
  }

  /**
   Every object ever registered is registered, being removed, waiting for its delete task or freed, and
   never two of these or twice freed.
   */
  lemma ObjectsAreFreedOnce(es: seq<Event>, o: nat)
    requires IsRun(START, es)
    ensures var s := Run(START, es);
            && Places(s, o) == (if o < s.objects then 1 else 0)
            && (s.stack == [] && o < s.objects ==> o in s.registered || o in s.erased || multiset(s.freed)[o] == 1)
  {
    StartIsOk();
    RunKeeps(START, es);
    var s := Run(START, es);
    hide Run;
    if s.stack == [] { assert Pending(s) == []; }
  }

  /** Without a synchronous invoke over a pending snapshot, no callback is started after its object was freed. */
  lemma NoCallbackAfterFree(es: seq<Event>)
    requires IsRun(START, es) && IsDisciplined(START, es)
    ensures !Run(START, es).usedAfterFree
  {
    StartIsOk();
    RunKeeps(START, es);
  }

  // ---- The discipline is needed ----

  lemma {:induction false} RunConcat(s: Loop, a: seq<Event>, b: seq<Event>)
    requires IsRun(s, a) && IsRun(Run(s, a), b)
    ensures IsRun(s, a + b) && Run(s, a + b) == Run(Run(s, a), b)
    decreases |a|
  {
    hide Step, Enabled;
    if a == [] {
      assert a + b == b;
    } else {
      RunConcat(Step(s, a[0]), a[1..], b);
      assert (a + b)[1..] == a[1..] + b;
    }
  }

  lemma RunOne(s: Loop, e: Event)
    requires Enabled(s, e)
    ensures IsRun(s, [e]) && Run(s, [e]) == Step(s, e)
  {
    hide Step, Enabled;
    assert [e][1..] == [] && IsRun(Step(s, e), []);
    assert Run(s, [e]) == Run(Step(s, e), []);
  }

  lemma RunThen(s: Loop, es: seq<Event>, e: Event)
    requires IsRun(s, es) && Enabled(Run(s, es), e)
    ensures IsRun(s, es + [e]) && Run(s, es + [e]) == Step(Run(s, es), e)
  {
    RunOne(Run(s, es), e);
    RunConcat(s, es, [e]);
  }

  /** The in-place drain runs every task taken, so every object whose delete task was among them is freed. */
  lemma {:induction false} DrainInPlace(s: Loop) returns (es: seq<Event>)
    requires s.stack != [] && Top(s) == SyncSecond && !s.running
    ensures IsRun(s, es)
    ensures var d := Run(s, es);
            && d.processTasks == [] && d.stack == s.stack && !d.running && d.polls == s.polls && d.timers == s.timers
            && (forall o :: o in s.freed || Delete(o) in s.processTasks ==> o in d.freed)
    decreases |s.processTasks|
  {
    if s.processTasks == [] { return []; }
    var a := Step(s, Call);
    var b := Step(a, Return);
    assert Top(a) == Top(s);
    RunOne(s, Call);
    RunThen(s, [Call], Return);
    var rest := DrainInPlace(b);
    RunConcat(s, [Call] + [Return], rest);
    es := [Call] + [Return] + rest;
    var t := s.processTasks[0];
    assert s.processTasks == [t] + b.processTasks;
  }

  /** What is next in the snapshot the top activation is working on. */
  function NextInSnapshot(s: Loop): nat
    requires s.polls != [] || s.timers != []
  {
    if s.polls != [] then s.polls[0] else s.timers[0]
  }

  const NONE := Choice(false, false, [], [])

  /** From a callback, remove object o unless that was done, and enter the in-place drain. */
  lemma EnterDrain(s: Loop, o: nat) returns (es: seq<Event>)
    requires Inv(s) && SnapshotsSafe(s) && InCallback(s) && (s.polls != [] || s.timers != []) && o == NextInSnapshot(s)
    ensures IsRun(s, es)
    ensures var d := Run(s, es);
            && d.stack == s.stack + [SyncSecond] && !d.running && Delete(o) in d.processTasks
            && d.polls == s.polls && d.timers == s.timers
  {
    FinishedHasNoSnapshot(s);
    assert o < s.objects && o !in s.freed by { assert o in s.polls || o in s.timers; }
    assert Places(s, o) == 1;
    es := [];
    if o in s.registered {
      es := [Erase(o)] + [PostDelete(o)];
      RunOne(s, Erase(o));
      RunThen(s, [Erase(o)], PostDelete(o));
    } else if o in s.erased {
      es := [PostDelete(o)];
      RunOne(s, PostDelete(o));
    } else {
      assert Delete(o) in multiset(Pending(s));
    }
    var a := Run(s, es);
    assert a.processTasks == [] && a.stack == s.stack && a.running && Delete(o) in a.tasks;
    hide Inv, SnapshotsSafe, Run, IsRun, Places;
    SyncSwaps(a);
    RunThen(s, es, Sync);
    RunThen(s, es + [Sync], Advance(NONE));
    es := es + [Sync] + [Advance(NONE)];
  }

  /** Entering the in-place drain with nothing taken takes everything queued. */
  lemma SyncSwaps(a: Loop)
    requires InCallback(a) && a.processTasks == []
    ensures Enabled(a, Sync) && Enabled(Step(a, Sync), Advance(NONE))
    ensures var d := Step(Step(a, Sync), Advance(NONE));
            && d.stack == a.stack + [SyncSecond] && !d.running && d.processTasks == a.tasks
            && d.polls == a.polls && d.timers == a.timers
  {
    assert Top(Step(a, Sync)) == SyncFirst;
  }

  /** Leaving it returns into the callback, which may return to its loop. */
  lemma SyncReturns(a: Loop, stack: seq<Pc>)
    requires a.stack == stack + [SyncSecond] && stack != [] && !a.running && a.processTasks == []
    ensures Enabled(a, Advance(NONE)) && Enabled(Step(a, Advance(NONE)), Return)
    ensures var d := Step(Step(a, Advance(NONE)), Return);
            d.stack == stack && !d.running && d.freed == a.freed && d.polls == a.polls && d.timers == a.timers
  {
    assert Top(a) == SyncSecond;
  }

  lemma SyncFrees(s: Loop, o: nat) returns (es: seq<Event>)
    requires Inv(s) && SnapshotsSafe(s) && InCallback(s) && (s.polls != [] || s.timers != []) && o == NextInSnapshot(s)
    ensures IsRun(s, es)
    ensures var d := Run(s, es);
            o in d.freed && d.stack == s.stack && !d.running && d.polls == s.polls && d.timers == s.timers
  {
    es := EnterDrain(s, o);
    hide Inv, SnapshotsSafe, IsRun, Run;
    var a := Run(s, es);
    assert Top(a) == SyncSecond;
    var rest := DrainInPlace(a);
    RunConcat(s, es, rest);
    es := es + rest;
    SyncReturns(Run(s, es), s.stack);
    hide Step, Enabled;
    RunThen(s, es, Advance(NONE));
    es := es + [Advance(NONE)];
    RunThen(s, es, Return);
    es := es + [Return];
  }

  /** The discipline is exact: a synchronous invoke over any pending snapshot can be followed by a callback on a freed object. */
  lemma SyncOverSnapshotFails(s: Loop) returns (es: seq<Event>)
    requires Inv(s) && SnapshotsSafe(s) && InCallback(s) && (s.polls != [] || s.timers != [])
    ensures IsRun(s, es) && Run(s, es).usedAfterFree
  {
    var first := SyncFrees(s, NextInSnapshot(s));
    var d := Run(s, first);
    RunThen(s, first, Call);
    es := first + [Call];
  }
}
