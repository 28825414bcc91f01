/**
 Whose callbacks are running. The event loop's state is followed together with
 the object of every callback in progress, outermost first; a task, and the
 events of the thread itself, have none. A callback that waits or drains tasks
 in place can outlive the object it belongs to.
 */
module CallbackLifetime {
  import opened Wrappers
  import opened EventLoopSpec

  datatype Traced = Traced(loop: Loop, callbacks: seq<Option<nat>>)

  const BEGIN := Traced(START, [None])

  /** The object whose callback is started next. */
  function NextObject(s: Loop): Option<nat>
    requires Enabled(s, Call)
  {
    if TaskPc(Top(s)) then None else if PollPc(Top(s)) then Some(s.polls[0]) else Some(s.timers[0])
  }

  function Follow(t: Traced, e: Event): Traced
    requires Enabled(t.loop, e)
  {
    var n := |t.callbacks|;
    Traced(Step(t.loop, e),
           match e
           case Call => t.callbacks + [NextObject(t.loop)]
           case Return => if n > 0 then t.callbacks[..n - 1] else []
           case Advance(c) => if NextMove(t.loop, c) == GoTo(FinishedEvent) then t.callbacks + [None] else t.callbacks
           case _ => t.callbacks)
  }

  /** One callback for each activation that has one in progress; only poll and timer callbacks have objects. */
  ghost predicate Framed(t: Traced) {
    && |t.callbacks| == (if t.loop.stack == [] then 0 else |t.loop.stack| - if t.loop.running then 0 else 1)
    && forall i :: 0 <= i < |t.callbacks| && t.callbacks[i].Some? ==> PollPc(t.loop.stack[i]) || TimerPc(t.loop.stack[i])
  }

  /** The i-th callback has an activation above it that may still run tasks. */
  predicate Nested(t: Traced, i: nat) {
    && i + 1 < |t.loop.stack|
    && !(i + 2 == |t.loop.stack| && !t.loop.running && Top(t.loop) == SyncSecond && t.loop.processTasks == [])
  }

  /** No running callback's object is freed, and one that is nested still has its object registered. */
  ghost predicate Alive(t: Traced) {
    forall i :: 0 <= i < |t.callbacks| && t.callbacks[i].Some? ==> AliveAt(t, t.callbacks[i].value, i)
  }

  predicate AliveAt(t: Traced, o: nat, i: nat) {
    o < t.loop.objects && o !in t.loop.freed && (Nested(t, i) ==> o in t.loop.registered)
  }

  /**
   A callback waits or drains tasks in place only while its own object is registered, and nobody
   removes the object of a callback that is doing so.
   */
  ghost predicate Considerate(t: Traced, e: Event) {
    var n := |t.callbacks|;
    match e
    case Wait => n > 0 && t.callbacks[n - 1].Some? ==> t.callbacks[n - 1].value in t.loop.registered
    case Sync => n > 0 && t.callbacks[n - 1].Some? ==> t.callbacks[n - 1].value in t.loop.registered
    case Erase(o) => forall i :: 0 <= i < n && Nested(t, i) ==> t.callbacks[i] != Some(o)
    case _ => true
  }

  // ---- The promise is kept ----

  lemma FramedKept(t: Traced, e: Event)
    requires Inv(t.loop) && Framed(t) && Enabled(t.loop, e)
    ensures Framed(Follow(t, e))
  {
    match e
    case Advance(c) => FramedAdvance(t, c); hide *;
    case _ => hide Inv, Go, Invoke;
  }

  lemma FramedAdvance(t: Traced, c: Choice)
    requires Inv(t.loop) && Framed(t) && Enabled(t.loop, Advance(c))
    ensures Framed(Follow(t, Advance(c)))
  {
    MoveFits(t.loop, c);
    var m := NextMove(t.loop, c);
    assert Step(t.loop, Advance(c)) == Apply(t.loop, c, m);
    hide Inv, NextMove, Step, Go;
    var d := Apply(t.loop, c, m);
    assert forall i :: 0 <= i < |t.loop.stack| - 1 ==> d.stack[i] == t.loop.stack[i];
  }

  lemma NoObjectAtShutdown(t: Traced)
    requires Inv(t.loop) && Framed(t) && t.loop.finished
    ensures forall i :: 0 <= i < |t.callbacks| ==> t.callbacks[i].None?
  {
    forall i | 0 <= i < |t.callbacks|
      ensures t.callbacks[i].None?
    {
      assert t.loop.stack[i] in t.loop.stack;
    }
  }

  /** A task that is started is not the delete task of an object that is still registered. */
  lemma StartedDeleteIsRemoved(s: Loop, o: nat)
    requires Conserved(s) && o in s.registered
    ensures Delete(o) !in s.processTasks
  {
    assert Places(s, o) <= 1;
    assert Delete(o) in s.processTasks ==> Delete(o) in multiset(Pending(s));
  }

  lemma CallKeepsAlive(t: Traced, i: nat)
    requires Conserved(t.loop) && SnapshotsSafe(t.loop) && Framed(t) && Alive(t) && Enabled(t.loop, Call)
    requires i < |Follow(t, Call).callbacks| && Follow(t, Call).callbacks[i].Some?
    ensures AliveAt(Follow(t, Call), Follow(t, Call).callbacks[i].value, i)
  {
    var s := t.loop;
    if i < |t.callbacks| {
      assert AliveAt(t, t.callbacks[i].value, i) && Nested(t, i);
      StartedDeleteIsRemoved(s, t.callbacks[i].value);
      if TaskPc(Top(s)) { assert s.processTasks[0] in s.processTasks; }
    } else if PollPc(Top(s)) {
      assert s.polls[0] in s.polls;
    } else {
      assert s.timers[0] in s.timers;
    }
  }

  lemma AdvanceKeepsAlive(t: Traced, c: Choice, i: nat)
    requires Inv(t.loop) && Framed(t) && Alive(t) && Enabled(t.loop, Advance(c))
    requires i < |Follow(t, Advance(c)).callbacks| && Follow(t, Advance(c)).callbacks[i].Some?
    ensures AliveAt(Follow(t, Advance(c)), Follow(t, Advance(c)).callbacks[i].value, i)
  {
    MoveFits(t.loop, c);
    assert AliveAt(t, t.callbacks[i].value, i);
    assert Top(t.loop) == SyncSecond ==> NextMove(t.loop, c) == Exit && t.loop.processTasks == [];
    hide Inv, NextMove;
  }

  lemma AliveKept(t: Traced, e: Event)
    requires Inv(t.loop) && SnapshotsSafe(t.loop) && Framed(t) && Alive(t) && Enabled(t.loop, e) && Considerate(t, e)
    ensures Alive(Follow(t, e))
  {
    var d := Follow(t, e);
    if t.loop.finished { NoObjectAtShutdown(t); }
    forall i | 0 <= i < |d.callbacks| && d.callbacks[i].Some?
      ensures AliveAt(d, d.callbacks[i].value, i)
    {
      match e
      case Call => CallKeepsAlive(t, i); hide *;
      case Advance(c) => AdvanceKeepsAlive(t, c, i); hide *;
      case _ => QuietKeepsAlive(t, e, i); hide *;
    }
  }

  lemma QuietKeepsAlive(t: Traced, e: Event, i: nat)
    requires Inv(t.loop) && Framed(t) && Alive(t) && Enabled(t.loop, e) && Considerate(t, e) && !e.Call? && !e.Advance?
    requires i < |Follow(t, e).callbacks| && Follow(t, e).callbacks[i].Some?
    ensures AliveAt(Follow(t, e), Follow(t, e).callbacks[i].value, i)
  {
    if t.loop.finished { NoObjectAtShutdown(t); }
    assert AliveAt(t, t.callbacks[i].value, i);
    hide Inv, Go, StartNext;
  }

  // ---- Runs ----

  ghost predicate IsTrace(t: Traced, es: seq<Event>)
    decreases |es|
  {
    es == [] || (Enabled(t.loop, es[0]) && IsTrace(Follow(t, es[0]), es[1..]))
  }

  ghost function Trace(t: Traced, es: seq<Event>): Traced
    requires IsTrace(t, es)
    decreases |es|
  {
    if es == [] then t else Trace(Follow(t, es[0]), es[1..])
  }

  /** No drain in place over a snapshot, and no callback outlived by its object. */
  ghost predicate IsConsiderate(t: Traced, es: seq<Event>)
    requires IsTrace(t, es)
    decreases |es|
  {
    es == [] || (Disciplined(t.loop, es[0]) && Considerate(t, es[0]) && IsConsiderate(Follow(t, es[0]), es[1..]))
  }

  lemma {:induction false} TraceKeeps(t: Traced, es: seq<Event>)
    requires IsTrace(t, es) && Inv(t.loop) && Framed(t)
    ensures Inv(Trace(t, es).loop) && Framed(Trace(t, es))
    ensures SnapshotsSafe(t.loop) && Alive(t) && IsConsiderate(t, es) ==>
              SnapshotsSafe(Trace(t, es).loop) && Alive(Trace(t, es))
    decreases |es|
  {
    hide Inv, SnapshotsSafe, Step, Enabled, Framed, Alive, Considerate, Disciplined;
    if es != [] {
      var e := es[0];
      EventKeeps(t.loop, e);
      FramedKept(t, e);
      if SnapshotsSafe(t.loop) && Alive(t) && Disciplined(t.loop, e) && Considerate(t, e) { AliveKept(t, e); }
      TraceKeeps(Follow(t, e), es[1..]);
    }
  }

  /** Over every considerate run no callback in progress belongs to a freed object. */
  lemma RunningCallbacksStayAlive(es: seq<Event>, o: nat)
    requires IsTrace(BEGIN, es) && IsConsiderate(BEGIN, es)
    ensures Some(o) in Trace(BEGIN, es).callbacks ==> o !in Trace(BEGIN, es).loop.freed
  {
    StartIsOk();
    TraceKeeps(BEGIN, es);
    var t := Trace(BEGIN, es);
    hide Trace, Inv, SnapshotsSafe, Framed;
    if Some(o) in t.callbacks {
      var i :| 0 <= i < |t.callbacks| && t.callbacks[i] == Some(o);
      assert AliveAt(t, o, i);
    }
  }

  // ---- The condition is needed ----

  lemma {:induction false} TraceConcat(t: Traced, a: seq<Event>, b: seq<Event>)
    requires IsTrace(t, a) && IsTrace(Trace(t, a), b)
    ensures IsTrace(t, a + b) && Trace(t, a + b) == Trace(Trace(t, a), b)
    decreases |a|
  {
    hide Step, Enabled, Follow;
    if a == [] {
      assert a + b == b;
    } else {
      TraceConcat(Follow(t, a[0]), a[1..], b);
      assert (a + b)[1..] == a[1..] + b;
    }
  }

  lemma TraceOne(t: Traced, e: Event)
    requires Enabled(t.loop, e)
    ensures IsTrace(t, [e]) && Trace(t, [e]) == Follow(t, e)
  {
    hide Step, Enabled, Follow;
    assert [e][1..] == [] && IsTrace(Follow(t, e), []);
    assert Trace(t, [e]) == Trace(Follow(t, e), []);
  }

  lemma TraceFrom(t: Traced, e: Event, rest: seq<Event>)
    requires Enabled(t.loop, e) && IsTrace(Follow(t, e), rest)
    ensures IsTrace(t, [e] + rest) && Trace(t, [e] + rest) == Trace(Follow(t, e), rest)
  {
    hide Step, Enabled, Follow;
    TraceOne(t, e);
    TraceConcat(t, [e], rest);
  }

  /** What silent callbacks leave of the activation on top: its queue is empty, and what was to be deleted is freed. */
  ghost predicate DrainedFrom(s: Loop, d: Loop) {
    && s.stack != [] && d.stack == s.stack && !d.running && Drained(d, Top(d)) && d.tasks == s.tasks && d.finished == s.finished
    && d.accepted == s.accepted && d.processTasks == (if TaskPc(Top(s)) then [] else s.processTasks)
    && (forall o :: o in s.freed ==> o in d.freed)
    && (TaskPc(Top(s)) ==> forall o :: Delete(o) in s.processTasks ==> o in d.freed)
  }

  /** One callback less to start. */
  ghost predicate OneLess(s: Loop, d: Loop) {
    && s.stack != [] && d.stack == s.stack && !d.running && d.tasks == s.tasks && d.finished == s.finished
    && d.accepted == s.accepted
    && |d.processTasks| + |d.polls| + |d.timers| < |s.processTasks| + |s.polls| + |s.timers|
    && (forall o :: o in s.freed ==> o in d.freed)
    && if TaskPc(Top(s)) then forall o :: Delete(o) in s.processTasks ==> o in d.freed || Delete(o) in d.processTasks
       else d.processTasks == s.processTasks
  }

  lemma OneLessThenDrained(s: Loop, m: Loop, d: Loop)
    requires OneLess(s, m) && DrainedFrom(m, d)
    ensures DrainedFrom(s, d)
  {
  }

  /** One callback is started and returns. */
  lemma OneSilentCallback(t: Traced)
    requires Enabled(t.loop, Call)
    ensures var a := Follow(t, Call);
            Enabled(a.loop, Return) && Follow(a, Return).callbacks == t.callbacks
    ensures OneLess(t.loop, Follow(Follow(t, Call), Return).loop)
  {
    var a := Follow(t, Call);
    assert a.callbacks[..|a.callbacks| - 1] == t.callbacks;
    var s := t.loop;
    if TaskPc(Top(s)) { assert s.processTasks == [s.processTasks[0]] + s.processTasks[1..]; }
  }

  lemma {:induction false} DrainSilently(t: Traced) returns (es: seq<Event>)
    requires InLoop(t.loop)
    ensures IsTrace(t, es) && Trace(t, es).callbacks == t.callbacks && DrainedFrom(t.loop, Trace(t, es).loop)
    ensures forall e :: e in es ==> e == Call || e == Return
    decreases |t.loop.processTasks| + |t.loop.polls| + |t.loop.timers|
  {
    if Drained(t.loop, Top(t.loop)) { return []; }
    OneSilentCallback(t);
    var a := Follow(t, Call);
    var b := Follow(a, Return);
    hide Follow;
    var rest := DrainSilently(b);
    OneLessThenDrained(t.loop, b.loop, Trace(b, rest).loop);
    hide Enabled, OneLess, DrainedFrom, IsTrace, Trace;
    TraceFrom(a, Return, rest);
    TraceFrom(t, Call, [Return] + rest);
    es := [Call] + ([Return] + rest);
  }

  /** A drained activation of these takes the queued tasks at its next move, or at the one after. */
  predicate Takes(pc: Pc) { pc in {StartTasks, StartPolls, StartTimers, LoopTasks, SyncFirst} }

  predicate Passes(pc: Pc) { pc in {OverloadTasks, LoopPolls, LoopTimers} }

  lemma TakesTasks(t: Traced)
    requires InLoop(t.loop) && Drained(t.loop, Top(t.loop)) && t.loop.processTasks == [] && t.loop.tasks != []
    requires Takes(Top(t.loop))
    ensures Enabled(t.loop, Advance(NONE))
    ensures var d := Follow(t, Advance(NONE));
            && d.callbacks == t.callbacks && InLoop(d.loop) && TaskPc(Top(d.loop)) && d.loop.processTasks == t.loop.tasks
            && |d.loop.stack| == |t.loop.stack| && d.loop.freed == t.loop.freed
  {
  }

  lemma PassesOn(t: Traced)
    requires InLoop(t.loop) && Drained(t.loop, Top(t.loop)) && t.loop.processTasks == [] && Passes(Top(t.loop))
    ensures Enabled(t.loop, Advance(NONE))
    ensures var d := Follow(t, Advance(NONE));
            && d.callbacks == t.callbacks && InLoop(d.loop) && Top(d.loop) == LoopTasks && d.loop.processTasks == []
            && d.loop.tasks == t.loop.tasks && d.loop.freed == t.loop.freed
  {
  }

  lemma TakeAndFree(t: Traced, o: nat) returns (es: seq<Event>)
    requires InLoop(t.loop) && Drained(t.loop, Top(t.loop)) && t.loop.processTasks == [] && Delete(o) in t.loop.tasks
    requires Takes(Top(t.loop))
    ensures IsTrace(t, es) && Trace(t, es).callbacks == t.callbacks && o in Trace(t, es).loop.freed
  {
    TakesTasks(t);
    hide Follow, Enabled;
    var rest := DrainSilently(Follow(t, Advance(NONE)));
    TraceFrom(t, Advance(NONE), rest);
    es := [Advance(NONE)] + rest;
  }

  /** A nested loop that may still run tasks gets to free an object whose delete task is queued. */
  lemma FreeFromLoop(t: Traced, o: nat) returns (es: seq<Event>)
    requires InLoop(t.loop) && Owned(t.loop) && (Takes(Top(t.loop)) || Passes(Top(t.loop))) && Delete(o) in Pending(t.loop)
    ensures IsTrace(t, es) && Trace(t, es).callbacks == t.callbacks && o in Trace(t, es).loop.freed
  {
    var first := DrainSilently(t);
    var d := Trace(t, first);
    hide Trace, IsTrace, Follow, Enabled;
    if o in d.loop.freed { return first; }
    assert d.loop.processTasks == [] && Delete(o) in d.loop.tasks;
    var rest;
    if Takes(Top(t.loop)) {
      rest := TakeAndFree(d, o);
    } else {
      PassesOn(d);
      rest := TakeAndFree(Follow(d, Advance(NONE)), o);
      TraceFrom(d, Advance(NONE), rest);
      rest := [Advance(NONE)] + rest;
    }
    TraceConcat(t, first, rest);
    es := first + rest;
  }

  lemma EnteredTakes(t: Traced, e: Event)
    requires Enabled(t.loop, e) && (e == Wait || e == Sync)
    ensures var d := Follow(t, e); InLoop(d.loop) && Takes(Top(d.loop)) && d.callbacks == t.callbacks
  {
    var d := Step(t.loop, e);
    assert Top(d) == d.stack[|t.loop.stack|];
  }

  /** From a state with an object removed, entering a nested loop or a drain in place can free it. */
  lemma FreeByNesting(t: Traced, e: Event, o: nat) returns (es: seq<Event>)
    requires Inv(t.loop) && !t.loop.finished && Enabled(t.loop, e) && (e == Wait || e == Sync)
    requires o < t.loop.objects && o !in t.loop.registered && o !in t.loop.freed
    ensures IsTrace(t, [e] + es) && Trace(t, [e] + es).callbacks == t.callbacks && o in Trace(t, [e] + es).loop.freed
  {
    EnteredTakes(t, e);
    StepKeeps(t.loop, e);
    var d := Follow(t, e);
    NestingMovesNothing(t, e);
    es := FreeRemoved(d, o);
    hide Follow, Enabled;
    TraceFrom(t, e, es);
  }

  lemma NestingMovesNothing(t: Traced, e: Event)
    requires Enabled(t.loop, e) && (e == Wait || e == Sync)
    ensures var d := Follow(t, e).loop;
            && d.registered == t.loop.registered && d.freed == t.loop.freed && d.objects == t.loop.objects
            && d.finished == t.loop.finished
  {
  }

  /** The delete of a removed object is posted, if that is still to come, and run. */
  lemma FreeRemoved(t: Traced, o: nat) returns (es: seq<Event>)
    requires Inv(t.loop) && !t.loop.finished && InLoop(t.loop) && (Takes(Top(t.loop)) || Passes(Top(t.loop)))
    requires o < t.loop.objects && o !in t.loop.registered && o !in t.loop.freed
    ensures IsTrace(t, es) && Trace(t, es).callbacks == t.callbacks && o in Trace(t, es).loop.freed
  {
    assert Places(t.loop, o) == 1;
    if o in t.loop.erased {
      var d := Follow(t, PostDelete(o));
      assert Delete(o) in d.loop.tasks && Owned(d.loop) && Top(d.loop) == Top(t.loop);
      hide Follow, Enabled, Inv, Places;
      var rest := FreeFromLoop(d, o);
      TraceFrom(t, PostDelete(o), rest);
      es := [PostDelete(o)] + rest;
    } else {
      assert Delete(o) in multiset(Pending(t.loop));
      es := FreeFromLoop(t, o);
    }
  }

  /** The removed object of a nested callback, seen from the top activation: some run frees it. */
  lemma FreeUnder(t: Traced, o: nat, i: nat) returns (es: seq<Event>)
    requires Inv(t.loop) && Framed(t) && i < |t.callbacks| && t.callbacks[i] == Some(o) && Nested(t, i)
    requires o < t.loop.objects && o !in t.loop.registered && o !in t.loop.freed
    ensures IsTrace(t, es) && Some(o) in Trace(t, es).callbacks && o in Trace(t, es).loop.freed
  {
    if t.loop.finished { NoObjectAtShutdown(t); }
    assert t.callbacks[i] in t.callbacks;
    if t.loop.running {
      var rest := FreeByNesting(t, Sync, o);
      return [Sync] + rest;
    }
    NestedFits(t, i);
    if Top(t.loop) != SyncSecond {
      es := FreeRemoved(t, o);
      return;
    }
    var e := if t.loop.processTasks == [] then Advance(NONE) else Call;
    var d := Follow(t, e);
    LeavesSyncSecond(t, o, i);
    StepKeeps(t.loop, e);
    TraceOne(t, e);
    hide Inv, Framed, Nested, Follow, IsTrace, Trace;
    if o in d.loop.freed { return [e]; }
    var rest := FreeByNesting(d, Sync, o);
    TraceFrom(t, e, [Sync] + rest);
    es := [e] + ([Sync] + rest);
  }

  /** The last stage of a drain in place starts a task or returns into a callback. */
  lemma LeavesSyncSecond(t: Traced, o: nat, i: nat)
    requires InLoop(t.loop) && Top(t.loop) == SyncSecond && Framed(t)
    requires i < |t.callbacks| && t.callbacks[i] == Some(o) && Nested(t, i)
    ensures var e := if t.loop.processTasks == [] then Advance(NONE) else Call;
            && Enabled(t.loop, e)
            && var d := Follow(t, e);
               && Enabled(d.loop, Sync) && Some(o) in d.callbacks && d.loop.finished == t.loop.finished
               && d.loop.registered == t.loop.registered && d.loop.objects == t.loop.objects
  {
    var e := if t.loop.processTasks == [] then Advance(NONE) else Call;
    assert Follow(t, e).callbacks[i] == Some(o);
  }

  lemma NestedFits(t: Traced, i: nat)
    requires Inv(t.loop) && Nested(t, i) && InLoop(t.loop)
    ensures Top(t.loop) == SyncSecond || Takes(Top(t.loop)) || Passes(Top(t.loop))
  {
  }

  /**
   The condition is exact: from every state whose running callbacks are alive, an event that breaks it
   can be followed by the freeing of an object whose callback is still in progress.
   */
  lemma InconsiderateFails(t: Traced, e: Event) returns (es: seq<Event>, o: nat)
    requires Inv(t.loop) && Framed(t) && Alive(t) && Enabled(t.loop, e) && !Considerate(t, e)
    ensures IsTrace(t, [e] + es)
    ensures Some(o) in Trace(t, [e] + es).callbacks && o in Trace(t, [e] + es).loop.freed
  {
    if t.loop.finished { NoObjectAtShutdown(t); }
    if e.Erase? {
      o := e.obj;
      var i :| 0 <= i < |t.callbacks| && Nested(t, i) && t.callbacks[i] == Some(o);
      assert AliveAt(t, o, i);
      var d := Follow(t, e);
      StepKeeps(t.loop, e);
      FramedKept(t, e);
      assert Nested(d, i) && d.callbacks[i] == Some(o);
      hide Inv, Framed, Alive, Follow;
      es := FreeUnder(d, o, i);
      TraceFrom(t, e, es);
    } else {
      var n := |t.callbacks|;
      o := t.callbacks[n - 1].value;
      assert AliveAt(t, o, n - 1) && t.callbacks[n - 1] in t.callbacks;
      es := FreeByNesting(t, e, o);
    }
  }
}
