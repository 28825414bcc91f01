/**
 The event loop as an object whose queues are updated in place. Each method is
 one uninterrupted stretch of the program: a locked section, or the start or
 end of a callback. `Valid` is the invariant of the specification, `Safe` says
 that no callback can start after its object was freed.
 */
module EventLoopThread {
  import opened EventLoopSpec
  import opened EventLoopProgress

  class AbstractThread {
    var tasks: seq<Task>
    var processTasks: seq<Task>
    var polls: seq<nat>
    var timers: seq<nat>
    var stack: seq<Pc>
    var running: bool
    var finished: bool
    var registered: set<nat>
    var erased: set<nat>
    var objects: nat
    ghost var freed: seq<nat>
    ghost var usedAfterFree: bool
    ghost var accepted: seq<Task>
    ghost var started: seq<Task>

    ghost function View(): Loop
      reads this
    {
      Loop(tasks, processTasks, polls, timers, stack, running, finished, registered, erased, objects, freed, usedAfterFree,
           accepted, started)
    }

    ghost predicate Valid()
      reads this
    {
      Inv(View())
    }

    ghost predicate Safe()
      reads this
    {
      SnapshotsSafe(View())
    }

    /** An outermost `exec` begins. */
    constructor ()
      ensures View() == START && Valid() && Safe()
    {
      StartIsOk();
      tasks, processTasks, polls, timers := [], [], [], [];
      stack, running, finished, registered, erased, objects := [StartTasks], true, false, {}, {}, 0;
      freed, usedAfterFree, accepted, started := [], false, [], [];
    }

    method InvokeTask(t: Task) returns (ok: bool)
      modifies this`tasks, this`accepted
      ensures ok == !finished && View() == Invoke(old(View()), t)
      ensures tasks == if ok then old(tasks) + [t] else old(tasks)
    {
      if finished { return false; }
      tasks := tasks + [t];
      accepted := accepted + [t];
      return true;
    }

    /** `invokeTask` of an ordinary task. */
    method Post(id: nat) returns (ok: bool)
      requires Valid()
      modifies this`tasks, this`accepted
      ensures Valid() && (old(Safe()) ==> Safe())
      ensures ok == !finished && View() == Step(old(View()), EventLoopSpec.Post(id))
      ensures tasks == if ok then old(tasks) + [Plain(id)] else old(tasks)
    {
      EventKeeps(View(), EventLoopSpec.Post(id));
      hide Inv, SnapshotsSafe;
      ok := InvokeTask(Plain(id));
    }

    method Append() returns (o: nat)
      requires Valid()
      modifies this`registered, this`objects
      ensures Valid() && (old(Safe()) ==> Safe())
      ensures o == old(objects) && View() == Step(old(View()), Register)
      ensures registered == old(registered) + {o} && objects == o + 1
    {
      EventKeeps(View(), Register);
      hide Inv, SnapshotsSafe;
      o := objects;
      registered := registered + {o};
      objects := objects + 1;
    }

    /** The first locked section of `removeTimer` and `removePollDescriptor`. */
    method EraseObject(o: nat)
      requires Valid() && o in registered
      modifies this`registered, this`erased
      ensures Valid() && (old(Safe()) ==> Safe())
      ensures View() == Step(old(View()), Erase(o))
      ensures registered == old(registered) - {o} && erased == old(erased) + {o}
    {
      EventKeeps(View(), Erase(o));
      hide Inv, SnapshotsSafe;
      registered := registered - {o};
      erased := erased + {o};
    }

    /** The second: the delete is posted, or done at once when the loop has finished. */
    method DeleteErased(o: nat)
      requires Valid() && o in erased
      modifies this`erased, this`tasks, this`accepted, this`freed
      ensures Valid() && (old(Safe()) ==> Safe())
      ensures View() == Step(old(View()), PostDelete(o))
      ensures erased == old(erased) - {o}
      ensures tasks == if finished then old(tasks) else old(tasks) + [Delete(o)]
      ensures freed == if finished then old(freed) + [o] else old(freed)
    {
      EventKeeps(View(), PostDelete(o));
      hide Inv, SnapshotsSafe;
      erased := erased - {o};
      var ok := InvokeTask(Delete(o));
      if !ok { freed := freed + [o]; }
    }

    /** One round of `process_tasks`. */
    method StartTask()
      requires Enabled(View(), Call) && TaskPc(Top(View()))
      modifies this`processTasks, this`running, this`started, this`freed
      ensures View() == StartNext(old(View()))
    {
      var t := processTasks[0];
      processTasks := processTasks[1..];
      started := started + [t];
      if t.Delete? { freed := freed + [t.obj]; }
      running := true;
    }

    /** One round of `process_polls`. */
    method StartPoll()
      requires Enabled(View(), Call) && PollPc(Top(View()))
      modifies this`polls, this`running, this`usedAfterFree
      ensures View() == StartNext(old(View()))
    {
      usedAfterFree := usedAfterFree || polls[0] in freed;
      polls := polls[1..];
      running := true;
    }

    /** One round of `process_timers`. */
    method StartTimer()
      requires Enabled(View(), Call) && TimerPc(Top(View()))
      modifies this`timers, this`running, this`usedAfterFree
      ensures View() == StartNext(old(View()))
    {
      usedAfterFree := usedAfterFree || timers[0] in freed;
      timers := timers[1..];
      running := true;
    }

    /** Whichever queue is being processed: take its front and start it. */
    method CallNext()
      requires Valid() && Enabled(View(), Call)
      modifies this`processTasks, this`polls, this`timers, this`running, this`started, this`freed, this`usedAfterFree
      ensures Valid() && (old(Safe()) ==> Safe() && !usedAfterFree)
      ensures View() == Step(old(View()), Call) && running
      ensures TakesFront(old(View()), View())
    {
      CallKeepsBoth(View());
      CallIsWork(View());
      CallTakesFront(View());
      hide Inv, SnapshotsSafe, Enabled, Step, StartNext, TakesFront;
      var pc := stack[|stack| - 1];
      if TaskPc(pc) { StartTask(); } else if PollPc(pc) { StartPoll(); } else { StartTimer(); }
    }

    method CallbackReturns()
      requires Valid() && Enabled(View(), Return)
      modifies this`running
      ensures Valid() && (old(Safe()) ==> Safe())
      ensures View() == Step(old(View()), Return) && !running
    {
      EventKeeps(View(), Return);
      hide Inv, SnapshotsSafe;
      running := false;
    }

    /** A callback enters a nested `exec`, which first finishes whatever snapshot it interrupted. */
    method EnterNested()
      requires Valid() && Enabled(View(), Wait)
      modifies this`stack, this`running
      ensures Valid() && (old(Safe()) ==> Safe())
      ensures View() == Step(old(View()), Wait) && !running
      ensures stack == old(stack) + [if processTasks != [] then StartTasks else if polls != [] then StartPolls
                                     else if timers != [] then StartTimers else StartTasks]
    {
      EventKeeps(View(), Wait);
      hide Inv, SnapshotsSafe;
      if processTasks != [] {
        stack := stack + [StartTasks];
      } else if polls != [] {
        stack := stack + [StartPolls];
      } else if timers != [] {
        stack := stack + [StartTimers];
      } else {
        stack := stack + [StartTasks];
      }
      running := false;
    }

    /** A callback calls `processTasks`. */
    method EnterSync()
      requires Valid() && Enabled(View(), Sync)
      modifies this`stack, this`running
      ensures Valid() && (old(Safe()) && polls == [] && timers == [] ==> Safe())
      ensures View() == Step(old(View()), Sync) && stack == old(stack) + [SyncFirst] && !running
    {
      EventKeeps(View(), Sync);
      hide Inv, SnapshotsSafe;
      stack, running := stack + [SyncFirst], false;
    }

    method SwapQueues()
      modifies this`tasks, this`processTasks
      ensures View() == Swap(old(View()))
    {
      tasks, processTasks := processTasks, tasks;
    }

    method ContinueAt(pc: Pc)
      requires stack != []
      modifies this`stack
      ensures View() == To(old(View()), pc)
    {
      stack := stack[..|stack| - 1] + [pc];
    }

    method LeaveActivation()
      requires stack != []
      modifies this`stack, this`running
      ensures View() == Pop(old(View()))
    {
      stack, running := stack[..|stack| - 1], true;
    }

    /** The end of the locked section: leave, or snapshot the ready descriptors or the due timers. */
    method LeaveOrSnapshot(c: Choice)
      requires stack != [] && !running
      modifies this`stack, this`running, this`polls, this`timers
      ensures View() == Apply(old(View()), c, Decide(old(View()), c))
      ensures var n := |old(stack)|;
              && stack == old(stack)[..n - 1] + (if c.quit then if n == 1 then [FinishedEvent] else []
                                                 else if c.polls != [] then [LoopPolls]
                                                 else if c.timers != [] then [LoopTimers] else [LoopTasks])
              && running == c.quit
              && polls == old(polls) + (if c.quit then [] else c.polls)
              && timers == old(timers) + (if c.quit || c.polls != [] then [] else c.timers)
    {
      hide Inv, SnapshotsSafe, Step, Enabled, NextMove;
      if c.quit {
        if |stack| == 1 {
          ContinueAt(FinishedEvent);
          running := true;
        } else {
          LeaveActivation();
        }
      } else if c.polls != [] {
        polls := polls + c.polls;
        ContinueAt(LoopPolls);
      } else if c.timers != [] {
        timers := timers + c.timers;
        ContinueAt(LoopTimers);
      } else {
        ContinueAt(LoopTasks);
      }
    }

    /** The locked section of the loop, entered with `process_tasks_` empty. */
    method TakeTasksOrGoOn(c: Choice)
      requires stack != [] && !running && Top(View()) == LoopTasks
      modifies this`tasks, this`processTasks, this`polls, this`timers, this`stack, this`running
      ensures View() == Apply(old(View()), c, NextMove(old(View()), c))
      ensures var n := |old(stack)|; var quit := old(tasks) == [] && c.quit;
              && (old(tasks) != [] ==>
                    && tasks == old(processTasks) && processTasks == old(tasks)
                    && stack == old(stack)[..n - 1] + [if c.awake && |old(tasks)| > 128 then OverloadTasks else LoopTasks])
              && (quit ==> stack == old(stack)[..n - 1] + if n == 1 then [FinishedEvent] else [])
              && running == quit
              && polls == old(polls) + (if old(tasks) != [] || c.quit then [] else c.polls)
              && timers == old(timers) + (if old(tasks) != [] || c.quit || c.polls != [] then [] else c.timers)
    {
      if tasks == [] {
        LeaveOrSnapshot(c);
        return;
      }
      SwapQueues();
      ContinueAt(if !c.awake || |processTasks| <= QUEUE_TASKS_OVERLOAD_SIZE then LoopTasks else OverloadTasks);
    }

    method TakeTasks(pc: Pc)
      requires stack != [] && !running && pc != FinishedEvent
      modifies this`tasks, this`processTasks, this`stack, this`finished
      ensures View() == Apply(old(View()), NONE, SwapTo(pc))
    {
      if pc == FinishTasks { finished := true; }
      SwapQueues();
      ContinueAt(pc);
    }

    /** Where the activation on top goes on, its queue being drained. */
    method Proceed(c: Choice)
      requires stack != [] && !running
      modifies this`tasks, this`processTasks, this`polls, this`timers, this`stack, this`running, this`finished
      ensures View() == Apply(old(View()), c, NextMove(old(View()), c))
      ensures var n := |old(stack)|; var look := old(LooksAround(View()));
              && (stack == old(stack)[..n - 1] <==> old(stack)[n - 1] in {FinishTasks, SyncSecond} || (look && c.quit && n > 1))
              && polls == old(polls) + (if look && !c.quit then c.polls else [])
              && timers == old(timers) + (if look && !c.quit && c.polls == [] then c.timers else [])
    {
      LeavesOrWorks(View(), c);
      hide Decide, LooksAround, Apply, NextMove;
      match stack[|stack| - 1]
      case LoopTasks => TakeTasksOrGoOn(c);
      case OverloadTasks => LeaveOrSnapshot(c);
      case LoopPolls => ContinueAt(LoopTasks);
      case LoopTimers => ContinueAt(LoopTasks);
      case FinishedEvent => TakeTasks(FinishTasks);
      case FinishTasks => LeaveActivation();
      case SyncFirst => TakeTasks(SyncSecond);
      case SyncSecond => LeaveActivation();
      case _ => TakeTasks(LoopTasks);
    }

    /** The activation on top has drained its queue. */
    method GoOn(c: Choice)
      requires Valid() && Enabled(View(), Advance(c))
      modifies this`tasks, this`processTasks, this`polls, this`timers, this`stack, this`running, this`finished
      ensures Valid() && (old(Safe()) ==> Safe())
      ensures View() == Step(old(View()), Advance(c))
      ensures var n := |old(stack)|; var look := old(LooksAround(View())); var take := old(TakesQueued(View()));
              && (stack == old(stack)[..n - 1] <==> old(stack)[n - 1] in {FinishTasks, SyncSecond} || (look && c.quit && n > 1))
              && processTasks == (if take then old(tasks) else []) && tasks == (if take then [] else old(tasks))
              && polls == old(polls) + (if look && !c.quit then c.polls else [])
              && timers == old(timers) + (if look && !c.quit && c.polls == [] then c.timers else [])
    {
      EventKeeps(View(), Advance(c));
      AdvanceIsApply(View(), c);
      LeavesIff(View(), c);
      TakesTasksIff(View(), c);
      SnapshotMove(View(), c, Descriptors);
      SnapshotMove(View(), c, Timers);
      hide Inv, SnapshotsSafe, Step, Enabled, Apply, NextMove;
      Proceed(c);
    }
  }

  lemma CallKeepsBoth(s: Loop)
    requires Inv(s) && Enabled(s, Call)
    ensures Inv(Step(s, Call)) && (SnapshotsSafe(s) ==> SnapshotsSafe(Step(s, Call)) && !Step(s, Call).usedAfterFree)
  {
    EventKeeps(s, Call);
    hide Inv, Step, Enabled;
  }

  lemma CallIsWork(s: Loop)
    requires Enabled(s, Call)
    ensures s.stack != [] && Step(s, Call) == StartNext(s)
    ensures TaskPc(Top(s)) || PollPc(Top(s)) || TimerPc(Top(s))
  {
  }
}
