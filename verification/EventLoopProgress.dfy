/**
 What the loop gets done. One move of an activation is described by what it takes
 and where it goes; over runs, every descriptor and timer that was found due is
 called in the order found, and every activation that is told to quit is left, up
 to the end of the outermost loop with every accepted task started.
 */
module EventLoopProgress {
  import opened EventLoopSpec
  import opened CallbackLifetime

  /** The places from which the quit bit, the descriptors and the timers are looked at. */
  predicate LooksAround(s: Loop)
    requires s.stack != []
  {
    var pc := s.stack[|s.stack| - 1];
    pc == OverloadTasks || (pc == LoopTasks && s.tasks == [])
  }

  /** The places that take the queued tasks next. */
  predicate TakesQueued(s: Loop)
    requires s.stack != []
  {
    var pc := s.stack[|s.stack| - 1];
    pc in {StartTasks, StartPolls, StartTimers, FinishedEvent, SyncFirst} || (pc == LoopTasks && s.tasks != [])
  }

  // ---- One move ----

  lemma WhichMove(s: Loop, c: Choice)
    requires s.stack != []
    ensures var m := NextMove(s, c); var pc := s.stack[|s.stack| - 1];
            && (m == Exit <==> pc in {FinishTasks, SyncSecond} || (LooksAround(s) && c.quit && |s.stack| > 1))
            && (m == SnapshotPolls <==> LooksAround(s) && !c.quit && c.polls != [])
            && (m == SnapshotTimers <==> LooksAround(s) && !c.quit && c.polls == [] && c.timers != [])
  {
  }

  lemma LastPlace(s: seq<Pc>, d: seq<Pc>, pc: Pc)
    requires s != [] && d == s[..|s| - 1] + [pc]
    ensures |d| == |s| && d[..|s| - 1] == s[..|s| - 1] && d != s[..|s| - 1]
  {
    assert |d| != |s[..|s| - 1]|;
  }

  lemma AdvanceIsApply(s: Loop, c: Choice)
    requires Enabled(s, Advance(c))
    ensures s.stack != [] && !s.running && Step(s, Advance(c)) == Apply(s, c, NextMove(s, c))
  {
  }

  lemma ApplyMoves(s: Loop, c: Choice, m: Move)
    requires s.stack != []
    ensures var d := Apply(s, c, m);
            && (m == Exit ==> d.stack == s.stack[..|s.stack| - 1] && d.running)
            && (m != Exit ==> d.stack == s.stack[..|s.stack| - 1] + [d.stack[|d.stack| - 1]])
            && d.polls == (if m == SnapshotPolls then s.polls + c.polls else s.polls)
            && d.timers == (if m == SnapshotTimers then s.timers + c.timers else s.timers)
  {
  }

  lemma LeavesOrWorks(s: Loop, c: Choice)
    requires s.stack != []
    ensures var d := Apply(s, c, NextMove(s, c)); var n := |s.stack|;
            && (d.stack == s.stack[..n - 1] || (|d.stack| == n && d.stack[..n - 1] == s.stack[..n - 1]))
            && (d.stack == s.stack[..n - 1] <==>
                  s.stack[n - 1] in {FinishTasks, SyncSecond} || (LooksAround(s) && c.quit && n > 1))
            && (d.stack == s.stack[..n - 1] ==> d.running)
            && d.polls == s.polls + (if LooksAround(s) && !c.quit then c.polls else [])
            && d.timers == s.timers + (if LooksAround(s) && !c.quit && c.polls == [] then c.timers else [])
  {
    WhichMove(s, c);
    var m := NextMove(s, c);
    ApplyMoves(s, c, m);
    var d := Apply(s, c, m);
    hide NextMove, Apply, LooksAround;
    if m != Exit { LastPlace(s.stack, d.stack, d.stack[|d.stack| - 1]); }
  }

  /** An activation is left from its last place, and a nested loop also when it looks around and finds its quit bit set. */
  lemma LeavesIff(s: Loop, c: Choice)
    requires Enabled(s, Advance(c))
    ensures var d := Step(s, Advance(c)); var n := |s.stack|;
            && (d.stack == s.stack[..n - 1] || (|d.stack| == n && d.stack[..n - 1] == s.stack[..n - 1]))
            && (d.stack == s.stack[..n - 1] <==>
                  s.stack[n - 1] in {FinishTasks, SyncSecond} || (LooksAround(s) && c.quit && n > 1))
            && (d.stack == s.stack[..n - 1] ==> d.running)
  {
    AdvanceIsApply(s, c);
    LeavesOrWorks(s, c);
    hide Step, NextMove, Apply, Enabled;
  }

  /** The outermost loop that finds its quit bit set calls finishedEvent and then takes what is queued for the last time. */
  lemma FinishesIff(s: Loop, c: Choice)
    requires Enabled(s, Advance(c))
    ensures var d := Step(s, Advance(c));
            && (|s.stack| == 1 ==> (d.stack == [FinishedEvent] && d.running <==> LooksAround(s) && c.quit))
            && (d.finished <==> s.finished || s.stack[|s.stack| - 1] == FinishedEvent)
  {
  }

  /** Tasks are taken all at once, before anything else is looked at. */
  lemma TakesTasksIff(s: Loop, c: Choice)
    requires Inv(s) && Enabled(s, Advance(c))
    ensures var d := Step(s, Advance(c));
            && d.processTasks == (if TakesQueued(s) then s.tasks else [])
            && d.tasks == (if TakesQueued(s) then [] else s.tasks)
  {
    MoveFits(s, c);
  }

  /** A loop that took more than 128 tasks while it was awake looks around after them, queued tasks or not. */
  lemma LooksAroundUnderLoad(s: Loop, c: Choice)
    requires Inv(s) && Enabled(s, Advance(c)) && s.stack[|s.stack| - 1] == LoopTasks && s.tasks != []
    ensures var d := Step(s, Advance(c)); var pc := d.stack[|s.stack| - 1];
            |d.stack| == |s.stack| && !d.running && pc == if c.awake && |s.tasks| > 128 then OverloadTasks else LoopTasks
  {
  }

  /** A loop that goes on works on the descriptors found ready, else on the timers found due, else looks for tasks again. */
  lemma WorksOnWhatIsDue(s: Loop, c: Choice)
    requires Enabled(s, Advance(c)) && LooksAround(s) && !c.quit
    ensures var d := Step(s, Advance(c));
            && d.stack == s.stack[..|s.stack| - 1]
                          + [if c.polls != [] then LoopPolls else if c.timers != [] then LoopTimers else LoopTasks]
            && !d.running
  {
  }

  /** Every other place has one successor. */
  lemma PassesTo(s: Loop, c: Choice)
    requires Enabled(s, Advance(c)) && s.stack[|s.stack| - 1] !in {LoopTasks, OverloadTasks, FinishTasks, SyncSecond}
    ensures var d := Step(s, Advance(c)); var pc := s.stack[|s.stack| - 1];
            && d.stack == s.stack[..|s.stack| - 1]
                          + [if pc == FinishedEvent then FinishTasks else if pc == SyncFirst then SyncSecond else LoopTasks]
            && !d.running
  {
  }

  /** Starting a callback takes the front of the one queue the activation works on. */
  ghost predicate TakesFront(s: Loop, d: Loop) {
    && s.stack != [] && d.stack == s.stack && d.running
    && var pc := s.stack[|s.stack| - 1];
       if pc in {StartPolls, LoopPolls} then
         && s.polls != [] && d.polls == s.polls[1..] && d.timers == s.timers
         && d.processTasks == s.processTasks && d.started == s.started
       else if pc in {StartTimers, LoopTimers} then
         && s.timers != [] && d.timers == s.timers[1..] && d.polls == s.polls
         && d.processTasks == s.processTasks && d.started == s.started
       else
         && s.processTasks != [] && d.processTasks == s.processTasks[1..] && d.started == s.started + [s.processTasks[0]]
         && d.polls == s.polls && d.timers == s.timers
  }

  lemma CallTakesFront(s: Loop)
    requires Enabled(s, Call)
    ensures TakesFront(s, Step(s, Call))
  {
    hide Go, Invoke;
  }

  // ---- What was found due is called in order ----

  datatype Source = Descriptors | Timers

  function Snapshot(s: Loop, k: Source): seq<nat> {
    if k == Descriptors then s.polls else s.timers
  }

  /** What an event adds to a snapshot: timers only when no descriptor is ready. */
  function Found(s: Loop, e: Event, k: Source): seq<nat>
    requires Enabled(s, e)
  {
    if !e.Advance? || !LooksAround(s) || e.choice.quit then []
    else if k == Descriptors then e.choice.polls
    else if e.choice.polls == [] then e.choice.timers
    else []
  }

  /** Whose callback an event starts. */
  function Called(s: Loop, e: Event, k: Source): seq<nat>
    requires Enabled(s, e)
  {
    var pc := if s.stack == [] then SyncFirst else s.stack[|s.stack| - 1];
    if e.Call? && k == Descriptors && (pc == StartPolls || pc == LoopPolls) then [s.polls[0]]
    else if e.Call? && k == Timers && (pc == StartTimers || pc == LoopTimers) then [s.timers[0]]
    else []
  }

  ghost function AllFound(s: Loop, es: seq<Event>, k: Source): seq<nat>
    requires IsRun(s, es)
    decreases |es|
  {
    if es == [] then [] else Found(s, es[0], k) + AllFound(Step(s, es[0]), es[1..], k)
  }

  ghost function AllCalled(s: Loop, es: seq<Event>, k: Source): seq<nat>
    requires IsRun(s, es)
    decreases |es|
  {
    if es == [] then [] else Called(s, es[0], k) + AllCalled(Step(s, es[0]), es[1..], k)
  }

  lemma SnapshotMove(s: Loop, c: Choice, k: Source)
    requires Enabled(s, Advance(c))
    ensures Snapshot(Step(s, Advance(c)), k) == Snapshot(s, k) + Found(s, Advance(c), k)
  {
    AdvanceIsApply(s, c);
    LeavesOrWorks(s, c);
    hide Step, NextMove, Apply, Enabled;
  }

  lemma SnapshotCall(s: Loop, k: Source)
    requires Enabled(s, Call)
    ensures Snapshot(s, k) == Called(s, Call, k) + Snapshot(Step(s, Call), k)
  {
    CallTakesFront(s);
    hide Step, Enabled;
    assert s.polls != [] ==> s.polls == [s.polls[0]] + s.polls[1..];
    assert s.timers != [] ==> s.timers == [s.timers[0]] + s.timers[1..];
  }

  lemma SnapshotStep(s: Loop, e: Event, k: Source)
    requires Enabled(s, e)
    ensures Snapshot(s, k) + Found(s, e, k) == Called(s, e, k) + Snapshot(Step(s, e), k)
  {
    match e
    case Advance(c) => SnapshotMove(s, c, k); hide Step, Enabled, Found, Snapshot;
    case Call => SnapshotCall(s, k); hide Step, Enabled, Called, Snapshot;
    case _ => hide Go, StartNext;
  }

  lemma Regroup(p: seq<nat>, f: seq<nat>, fs: seq<nat>, c: seq<nat>, cs: seq<nat>, d: seq<nat>, q: seq<nat>)
    requires p + f == c + d && d + fs == cs + q
    ensures p + (f + fs) == (c + cs) + q
  {
    assert p + (f + fs) == (p + f) + fs;
    assert (c + d) + fs == c + (d + fs);
    assert c + (cs + q) == (c + cs) + q;
  }

  /** Over every run: what was pending and what was found due since is what was called and what is pending, in that order. */
  lemma {:induction false} CalledInOrder(s: Loop, es: seq<Event>, k: Source)
    requires IsRun(s, es)
    ensures Snapshot(s, k) + AllFound(s, es, k) == AllCalled(s, es, k) + Snapshot(Run(s, es), k)
    decreases |es|
  {
    hide Step, Enabled, Found, Called, Snapshot;
    if es != [] {
      var d := Step(s, es[0]);
      SnapshotStep(s, es[0], k);
      CalledInOrder(d, es[1..], k);
      Regroup(Snapshot(s, k), Found(s, es[0], k), AllFound(d, es[1..], k), Called(s, es[0], k), AllCalled(d, es[1..], k),
              Snapshot(d, k), Snapshot(Run(d, es[1..]), k));
    }
  }

  /**
   Every descriptor and timer found due is called exactly once, in the order found: none is dropped by
   removals, nested loops or overload, and without an in-place drain over a snapshot none is left when an
   activation goes on or the loop has ended.
   */
  lemma EverythingDueIsCalled(es: seq<Event>, k: Source)
    requires IsRun(START, es)
    ensures AllFound(START, es, k) == AllCalled(START, es, k) + Snapshot(Run(START, es), k)
    ensures var s := Run(START, es);
            IsDisciplined(START, es) && (s.stack == [] || exists c :: Enabled(s, Advance(c))) ==>
              AllCalled(START, es, k) == AllFound(START, es, k)
  {
    StartIsOk();
    RunKeeps(START, es);
    CalledInOrder(START, es, k);
    assert Snapshot(START, k) + AllFound(START, es, k) == AllFound(START, es, k);
    var s := Run(START, es);
    hide Run, IsRun, AllFound, AllCalled, Inv;
    if IsDisciplined(START, es) && (s.stack == [] || exists c :: Enabled(s, Advance(c))) {
      assert Snapshot(s, k) == [];
    }
  }

  // ---- An activation that is told to quit is left ----

  /** Nothing but callbacks that return, and moves that find the quit bit set and nothing due. */
  predicate Quitting(e: Event, awake: bool) {
    e == Call || e == Return || e == Advance(Choice(true, awake, [], []))
  }

  ghost predicate OnlyQuitting(es: seq<Event>, awake: bool) {
    forall e :: e in es ==> Quitting(e, awake)
  }

  /** An upper bound on the moves from a place to the end of its activation. */
  function MovesFrom(pc: Pc, idle: bool): nat {
    if pc == LoopPolls || pc == LoopTimers then 5
    else if pc == FinishedEvent || pc == SyncFirst then 2
    else if pc == FinishTasks || pc == SyncSecond then 1
    else if pc == OverloadTasks || (pc == LoopTasks && idle) then 3
    else 4
  }

  function MovesLeft(s: Loop): nat {
    if s.stack == [] then 0 else MovesFrom(s.stack[|s.stack| - 1], s.tasks == [])
  }

  /** The stack is the same but for the activation on top, which is left or nearer to being so. */
  ghost predicate Onward(s: Loop, d: Loop) {
    && s.stack != [] && d.accepted == s.accepted
    && var n := |s.stack|;
       || d.stack == s.stack[..n - 1]
       || (|d.stack| == n && d.stack[..n - 1] == s.stack[..n - 1] && MovesLeft(d) < MovesLeft(s))
  }

  lemma EnabledQuitting(s: Loop, awake: bool)
    requires InLoop(s) && Drained(s, Top(s))
    ensures Enabled(s, Advance(Choice(true, awake, [], [])))
  {
  }

  lemma NearerAfterTasks(s: Loop, awake: bool)
    requires Inv(s) && Enabled(s, Advance(Choice(true, awake, [], [])))
    requires s.stack[|s.stack| - 1] == LoopTasks && s.tasks != []
    ensures MovesLeft(Step(s, Advance(Choice(true, awake, [], [])))) < MovesLeft(s)
  {
    assert s.stack != [];
    hide Inv, Step, Enabled;
    var c := Choice(true, awake, [], []);
    TakesTasksIff(s, c);
    LooksAroundUnderLoad(s, c);
    var d := Step(s, Advance(c));
    assert MovesLeft(d) == MovesFrom(d.stack[|s.stack| - 1], true);
  }

  lemma NearerFromLastPlaces(s: Loop, awake: bool)
    requires Inv(s) && Enabled(s, Advance(Choice(true, awake, [], [])))
    requires s.stack[|s.stack| - 1] in {LoopTasks, OverloadTasks, FinishTasks, SyncSecond}
    ensures var d := Step(s, Advance(Choice(true, awake, [], [])));
            |d.stack| == |s.stack| ==> MovesLeft(d) < MovesLeft(s)
  {
    assert s.stack != [];
    hide Inv, Step, Enabled, MovesLeft, MovesFrom;
    var c := Choice(true, awake, [], []);
    var d := Step(s, Advance(c));
    if s.stack[|s.stack| - 1] == LoopTasks && s.tasks != [] {
      NearerAfterTasks(s, awake);
    } else {
      LeavesIff(s, c);
      if |s.stack| == 1 && |d.stack| == 1 {
        FinishesIff(s, c);
        NearerAfterFinished(s, d);
      }
    }
  }

  lemma NearerAfterFinished(s: Loop, d: Loop)
    requires |s.stack| == 1 && LooksAround(s) && d.stack == [FinishedEvent]
    ensures MovesLeft(d) < MovesLeft(s)
  {
  }

  lemma NearerFromPassing(s: Loop, awake: bool)
    requires Inv(s) && Enabled(s, Advance(Choice(true, awake, [], [])))
    requires s.stack[|s.stack| - 1] !in {LoopTasks, OverloadTasks, FinishTasks, SyncSecond}
    ensures var d := Step(s, Advance(Choice(true, awake, [], [])));
            |d.stack| == |s.stack| && MovesLeft(d) < MovesLeft(s)
  {
    assert s.stack != [];
    hide Inv, Step, Enabled;
    var c := Choice(true, awake, [], []);
    PassesTo(s, c);
    TakesTasksIff(s, c);
  }

  lemma QuittingMove(s: Loop, awake: bool)
    requires Inv(s) && InLoop(s) && Drained(s, Top(s))
    ensures var e := Advance(Choice(true, awake, [], [])); Enabled(s, e) && Onward(s, Step(s, e))
  {
    hide Inv, Step, Enabled, MovesLeft, Drained, LooksAround;
    var c := Choice(true, awake, [], []);
    EnabledQuitting(s, awake);
    LeavesIff(s, c);
    AcceptsNothing(s, c);
    if s.stack[|s.stack| - 1] in {LoopTasks, OverloadTasks, FinishTasks, SyncSecond} {
      NearerFromLastPlaces(s, awake);
    } else {
      NearerFromPassing(s, awake);
    }
  }

  lemma AcceptsNothing(s: Loop, c: Choice)
    requires Enabled(s, Advance(c))
    ensures Step(s, Advance(c)).accepted == s.accepted
  {
  }

  lemma {:induction false} TraceIsRun(t: Traced, es: seq<Event>)
    requires IsTrace(t, es)
    ensures IsRun(t.loop, es) && Run(t.loop, es) == Trace(t, es).loop
    decreases |es|
  {
    hide Step, Enabled;
    if es != [] { TraceIsRun(Follow(t, es[0]), es[1..]); }
  }

  /** The callbacks the activation on top still has to start. */
  lemma DrainTop(s: Loop, awake: bool) returns (es: seq<Event>)
    requires InLoop(s)
    ensures IsRun(s, es) && OnlyQuitting(es, awake) && DrainedFrom(s, Run(s, es))
  {
    var t := Traced(s, []);
    es := DrainSilently(t);
    TraceIsRun(t, es);
  }

  lemma ReturnIsOnward(s: Loop)
    requires InCallback(s)
    ensures Enabled(s, Return)
    ensures var d := Step(s, Return);
            d.stack == s.stack && !d.running && d.accepted == s.accepted && MovesLeft(d) == MovesLeft(s)
  {
  }

  lemma DrainedIsOnward(s: Loop, d: Loop)
    requires InLoop(s) && DrainedFrom(s, d)
    ensures d.stack == s.stack && d.accepted == s.accepted && InLoop(d) && Drained(d, Top(d)) && MovesLeft(d) == MovesLeft(s)
  {
  }

  lemma QuittingConcat(s: Loop, a: seq<Event>, b: seq<Event>, awake: bool)
    requires IsRun(s, a) && IsRun(Run(s, a), b) && OnlyQuitting(a, awake) && OnlyQuitting(b, awake)
    ensures IsRun(s, a + b) && Run(s, a + b) == Run(Run(s, a), b) && OnlyQuitting(a + b, awake)
  {
    hide Run, IsRun;
    RunConcat(s, a, b);
  }

  lemma QuittingOne(s: Loop, e: Event, awake: bool)
    requires Enabled(s, e) && Quitting(e, awake)
    ensures IsRun(s, [e]) && Run(s, [e]) == Step(s, e) && OnlyQuitting([e], awake)
  {
    hide Step, Enabled, Run, IsRun;
    RunOne(s, e);
  }

  /** From any place, silent callbacks and moves that find the quit bit set leave the activation on top. */
  lemma {:induction false} TopIsLeft(s: Loop, awake: bool) returns (es: seq<Event>)
    requires Inv(s) && s.stack != []
    ensures IsRun(s, es) && OnlyQuitting(es, awake)
    ensures var d := Run(s, es); d.stack == s.stack[..|s.stack| - 1] && d.accepted == s.accepted
    decreases MovesLeft(s), s.running
  {
    hide Inv, Step, Enabled, IsRun, Run, DrainedFrom, OnlyQuitting, MovesLeft, Drained;
    var rest: seq<Event> := [];
    if s.running {
      ReturnIsOnward(s);
      StepKeeps(s, Return);
      QuittingOne(s, Return, awake);
      rest := TopIsLeft(Step(s, Return), awake);
      QuittingConcat(s, [Return], rest, awake);
      return [Return] + rest;
    }
    var first := DrainTop(s, awake);
    var d := Run(s, first);
    RunKeeps(s, first);
    DrainedIsOnward(s, d);
    QuittingMove(d, awake);
    var e := Advance(Choice(true, awake, [], []));
    var m := Step(d, e);
    StepKeeps(d, e);
    QuittingOne(d, e, awake);
    QuittingConcat(s, first, [e], awake);
    es := first + [e];
    if |m.stack| == |s.stack| {
      rest := TopIsLeft(m, awake);
      QuittingConcat(s, es, rest, awake);
      es := es + rest;
    }
  }

  /**
   A nested loop, or a drain in place, that is told to quit returns into the callback that started it,
   whatever it was doing: tasks taken, a snapshot, or tasks queued behind it.
   */
  lemma NestedReturns(s: Loop, awake: bool) returns (es: seq<Event>)
    requires Inv(s) && |s.stack| > 1
    ensures IsRun(s, es) && OnlyQuitting(es, awake)
    ensures var d := Run(s, es); d.stack == s.stack[..|s.stack| - 1] && d.accepted == s.accepted
  {
    es := TopIsLeft(s, awake);
  }

  /** Activations are left one after the other. */
  lemma {:induction false} AllAreLeft(s: Loop, awake: bool) returns (es: seq<Event>)
    requires Inv(s)
    ensures IsRun(s, es) && OnlyQuitting(es, awake)
    ensures Run(s, es).stack == [] && Run(s, es).accepted == s.accepted
    decreases |s.stack|
  {
    if s.stack == [] { return []; }
    hide Inv, Step, Enabled, OnlyQuitting;
    es := TopIsLeft(s, awake);
    var d := Run(s, es);
    RunKeeps(s, es);
    var rest := AllAreLeft(d, awake);
    hide Run, IsRun;
    QuittingConcat(s, es, rest, awake);
    es := es + rest;
  }

  /**
   No state is stuck: every run can be continued, by nothing but callbacks that return and loops that find
   their quit bit set, to the end of the outermost loop, with every task accepted so far started in order.
   */
  lemma EveryRunCanEnd(es: seq<Event>, awake: bool) returns (rest: seq<Event>)
    requires IsRun(START, es)
    ensures OnlyQuitting(rest, awake) && IsRun(START, es + rest)
    ensures var s := Run(START, es); var d := Run(START, es + rest);
            d.stack == [] && d.finished && d.accepted == s.accepted && d.started == s.accepted
  {
    StartIsOk();
    RunKeeps(START, es);
    var s := Run(START, es);
    hide Run, IsRun, Inv, OnlyQuitting;
    rest := AllAreLeft(s, awake);
    RunConcat(START, es, rest);
    TasksStartInOrder(es + rest);
    EndedIsFinished(es + rest);
  }

  lemma EndedIsFinished(es: seq<Event>)
    requires IsRun(START, es) && Run(START, es).stack == []
    ensures Run(START, es).finished
  {
    StartIsOk();
    RunKeeps(START, es);
    hide Run, IsRun;
  }
}
