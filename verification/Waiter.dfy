/**
 Nested event loops: `Waiter::wait` runs `exec` again on the same thread until
 `Waiter::complete`, which asks some loop to quit. `nested_`, the level each
 frame remembers, the WaitFinished bit and the waiters' debts form a stack
 protocol.

 A frame is one live `wait`: its waiter is complete when `thread_` is null.
 The outermost loop is below frame 0 and carries no level.
 */
module WaiterSpec {
  datatype Frame = Frame(level: nat, debt: nat, complete: bool)
  datatype Loops = Loops(frames: seq<Frame>, nested: nat, waitFinished: bool)
  datatype Event = Wait | Complete(i: nat) | Leave

  const START := Loops([], 0, false)

  /** n calls of `quit`. */
  function Quits(s: Loops, n: nat): Loops {
    s.(nested := if s.nested < n then 0 else s.nested - n, waitFinished := s.waitFinished || n > 0)
  }

  function Top(s: Loops): Frame
    requires s.frames != []
  {
    s.frames[|s.frames| - 1]
  }

  /** A loop leaves only when it finds WaitFinished set. */
  predicate Enabled(s: Loops, e: Event) {
    e.Leave? ==> s.frames != [] && s.waitFinished
  }

  function Step(s: Loops, e: Event): Loops
    requires Enabled(s, e)
  {
    match e
    case Wait => s.(frames := s.frames + [Frame(s.nested + 1, 0, false)], nested := s.nested + 1)
    case Complete(i) =>
      if i >= |s.frames| || s.frames[i].complete then s
      else Quits(s, 1).(frames := s.frames[i := s.frames[i].(complete := true)])
    case Leave =>
      var t := Top(s);
      var below := s.frames[..|s.frames| - 1];
      var out := s.(waitFinished := s.waitFinished && !(t.level - 1 <= s.nested));
      if t.complete then Quits(out.(frames := below), t.debt)
      else Loops(below + [Frame(s.nested + 1, t.debt + 1, false)], s.nested + 1, out.waitFinished)
  }

  // ---- The invariant ----

  /** Completed waiters not yet returned. */
  function Completed(f: seq<Frame>): (n: nat)
    ensures n <= |f|
  {
    if f == [] then 0 else Completed(f[..|f| - 1]) + if f[|f| - 1].complete then 1 else 0
  }

  function Debts(f: seq<Frame>): nat {
    if f == [] then 0 else Debts(f[..|f| - 1]) + f[|f| - 1].debt
  }

  /** How far the level of frame i exceeds the value nested_ takes once everything above it has returned. */
  function Slack(f: seq<Frame>, i: nat): int
    requires i < |f|
  {
    Completed(f[..i + 1]) - Debts(f[..i + 1]) + f[i].level - (i + 1)
  }

  ghost predicate Balanced(s: Loops) {
    Debts(s.frames) + (|s.frames| - s.nested) == Completed(s.frames)
  }

  ghost predicate FrameOk(f: seq<Frame>, i: nat)
    requires i < |f|
  {
    && 1 <= f[i].level <= i + 1 + Debts(f[..i + 1])
    && Slack(f, i) >= (if f[i].complete then 1 else 0)
    && (f[i].debt > 0 ==> Completed(f[..i]) > 0)
  }

  ghost predicate FramesOk(f: seq<Frame>) {
    forall i :: 0 <= i < |f| ==> FrameOk(f, i)
  }

  ghost predicate Inv(s: Loops) {
    && Balanced(s)
    && FramesOk(s.frames)
    && (s.waitFinished ==> Completed(s.frames) > 0)
  }

  /** Frame i, returning to a completed waiter below it, leaves WaitFinished set. */
  ghost predicate Hands(f: seq<Frame>, i: nat)
    requires 0 < i < |f|
  {
    f[i - 1].complete && f[i].debt == 0 ==> Slack(f, i) >= 1 + if f[i].complete then 1 else 0
  }

  ghost predicate AllHand(f: seq<Frame>) {
    forall i :: 0 < i < |f| ==> Hands(f, i)
  }

  /** A completed innermost waiter finds WaitFinished set; a completed one below will, once it is innermost. */
  ghost predicate NotStranded(s: Loops) {
    AllHand(s.frames) && (s.frames != [] && Top(s).complete ==> s.waitFinished)
  }

  lemma {:induction false} CompleteCounts(f: seq<Frame>, i: nat)
    requires i < |f| && !f[i].complete
    ensures var g := f[i := f[i].(complete := true)];
            Completed(g) == Completed(f) + 1 && Debts(g) == Debts(f)
  {
    var g := f[i := f[i].(complete := true)];
    if i == |f| - 1 {
      assert g[..i] == f[..i];
    } else {
      CompleteCounts(f[..|f| - 1], i);
      assert g[..|f| - 1] == f[..|f| - 1][i := g[i]];
    }
  }

  lemma CompleteFrames(f: seq<Frame>, i: nat, j: nat)
    requires i < |f| && !f[i].complete && j < |f|
    ensures var g := f[i := f[i].(complete := true)];
            && Completed(g[..j]) == Completed(f[..j]) + (if i < j then 1 else 0) && Debts(g[..j]) == Debts(f[..j])
            && Slack(g, j) == Slack(f, j) + (if i <= j then 1 else 0) && Debts(g[..j + 1]) == Debts(f[..j + 1])
  {
    var g := f[i := f[i].(complete := true)];
    if i < j {
      CompleteCounts(f[..j], i);
      assert g[..j] == f[..j][i := g[i]];
    } else {
      assert g[..j] == f[..j];
    }
    if i <= j {
      CompleteCounts(f[..j + 1], i);
      assert g[..j + 1] == f[..j + 1][i := g[i]];
    } else {
      assert g[..j + 1] == f[..j + 1];
    }
  }

  lemma CompleteKeeps(s: Loops, i: nat)
    requires Inv(s) && i < |s.frames| && !s.frames[i].complete
    ensures Inv(Step(s, Complete(i))) && (NotStranded(s) ==> NotStranded(Step(s, Complete(i))))
  {
    var f, d := s.frames, Step(s, Complete(i));
    CompleteCounts(f, i);
    assert Completed(d.frames) <= |f|;
    forall j | 0 <= j < |f|
      ensures FrameOk(d.frames, j) && (j > 0 && Hands(f, j) ==> Hands(d.frames, j))
    {
      assert FrameOk(f, j);
      CompleteFrames(f, i, j);
    }
  }

  lemma PushCounts(f: seq<Frame>, x: Frame)
    ensures var g := f + [x];
            && Completed(g) == Completed(f) + (if x.complete then 1 else 0) && Debts(g) == Debts(f) + x.debt
            && g[..|f|] == f && g[..|g|] == g
  {
    var g := f + [x];
    assert g[..|f|] == f && g[..|g|] == g;
  }

  lemma PushKeeps(f: seq<Frame>, x: Frame)
    ensures FramesOk(f + [x]) <==> FramesOk(f) && FrameOk(f + [x], |f|)
    ensures AllHand(f + [x]) <==> AllHand(f) && (f != [] ==> Hands(f + [x], |f|))
  {
    var g := f + [x];
    assert forall j :: 0 <= j <= |f| ==> g[..j] == f[..j];
    forall j | 0 <= j < |f|
      ensures FrameOk(f, j) <==> FrameOk(g, j)
      ensures j > 0 ==> (Hands(f, j) <==> Hands(g, j))
    {
      assert g[..j + 1] == f[..j + 1];
    }
  }

  /** The conditions on a frame on top, in terms of the frames below it. */
  lemma PushedFrame(f: seq<Frame>, x: Frame)
    ensures var g, one := f + [x], if x.complete then 1 else 0;
            var slack := Completed(f) - Debts(f) + one - x.debt + x.level - (|f| + 1);
            && (FrameOk(g, |f|) <==> && 1 <= x.level <= |f| + 1 + Debts(f) + x.debt && slack >= one
                                     && (x.debt > 0 ==> Completed(f) > 0))
            && (f != [] ==> (Hands(g, |f|) <==> (f[|f| - 1].complete && x.debt == 0 ==> slack >= 1 + one)))
  {
    PushCounts(f, x);
    assert (f + [x])[..|f|] == f && (f + [x])[..|f| + 1] == f + [x];
  }

  lemma WaitKeeps(s: Loops)
    requires Inv(s)
    ensures Inv(Step(s, Wait))
    ensures NotStranded(s) && (s.frames != [] ==> !Top(s).complete) ==> NotStranded(Step(s, Wait))
  {
    hide FramesOk, AllHand, Completed, Debts, FrameOk, Hands, Slack;
    var f, x := s.frames, Frame(s.nested + 1, 0, false);
    PushCounts(f, x);
    PushKeeps(f, x);
    PushedFrame(f, x);
    var d := Step(s, Wait);
    assert d.frames == f + [x];
    assert Balanced(d);
    assert FrameOk(f + [x], |f|);
    assert f != [] && !Top(s).complete ==> Hands(f + [x], |f|);
  }

  /** What the invariant says of the innermost frame, with the frames below it apart. */
  lemma TopFacts(s: Loops, below: seq<Frame>, t: Frame)
    requires Inv(s) && s.frames == below + [t]
    ensures FramesOk(below) && (AllHand(s.frames) ==> AllHand(below))
    ensures Completed(s.frames) == Completed(below) + (if t.complete then 1 else 0)
    ensures Debts(s.frames) == Debts(below) + t.debt
    ensures 1 <= t.level <= |below| + 1 + Debts(s.frames) && (t.debt > 0 ==> Completed(below) > 0)
    ensures Completed(s.frames) - Debts(s.frames) + t.level - (|below| + 1) >= if t.complete then 1 else 0
    ensures AllHand(s.frames) && below != [] && below[|below| - 1].complete && t.debt == 0 ==>
              Completed(s.frames) - Debts(s.frames) + t.level - (|below| + 1) >= 1 + if t.complete then 1 else 0
  {
    hide FramesOk, AllHand, Completed, Debts, FrameOk, Hands, Slack;
    PushCounts(below, t);
    PushKeeps(below, t);
    PushedFrame(below, t);
  }

  lemma LeaveCompleteKeeps(s: Loops)
    requires Inv(s) && Enabled(s, Leave) && Top(s).complete
    ensures Inv(Step(s, Leave)) && (NotStranded(s) ==> NotStranded(Step(s, Leave)))
  {
    hide FramesOk, AllHand, Completed, Debts, FrameOk, Hands, Slack;
    var below, t := s.frames[..|s.frames| - 1], Top(s);
    assert s.frames == below + [t];
    TopFacts(s, below, t);
  }

  lemma LeaveUnfinishedKeeps(s: Loops)
    requires Inv(s) && Enabled(s, Leave) && !Top(s).complete
    ensures Inv(Step(s, Leave)) && (NotStranded(s) ==> NotStranded(Step(s, Leave)))
  {
    hide FramesOk, AllHand, Completed, Debts, FrameOk, Hands, Slack;
    var below, t := s.frames[..|s.frames| - 1], Top(s);
    assert s.frames == below + [t];
    TopFacts(s, below, t);
    var x := Frame(s.nested + 1, t.debt + 1, false);
    PushCounts(below, x);
    PushKeeps(below, x);
    PushedFrame(below, x);
  }

  lemma LeaveKeeps(s: Loops)
    requires Inv(s) && Enabled(s, Leave)
    ensures Inv(Step(s, Leave)) && (NotStranded(s) ==> NotStranded(Step(s, Leave)))
  {
    if Top(s).complete { LeaveCompleteKeeps(s); } else { LeaveUnfinishedKeeps(s); }
  }

  // ---- Runs ----

  ghost predicate IsRun(s: Loops, es: seq<Event>)
    decreases |es|
  {
    es == [] || (Enabled(s, es[0]) && IsRun(Step(s, es[0]), es[1..]))
  }

  function Run(s: Loops, es: seq<Event>): Loops
    requires IsRun(s, es)
    decreases |es|
  {
    if es == [] then s else Run(Step(s, es[0]), es[1..])
  }

  /** No wait starts while the innermost waiter is already complete. */
  ghost predicate IsGuarded(s: Loops, es: seq<Event>)
    requires IsRun(s, es)
    decreases |es|
  {
    es == [] || ((es[0].Wait? && s.frames != [] ==> !Top(s).complete) && IsGuarded(Step(s, es[0]), es[1..]))
  }

  lemma StepKeeps(s: Loops, e: Event)
    requires Inv(s) && Enabled(s, e)
    ensures Inv(Step(s, e))
    ensures NotStranded(s) && (e.Wait? && s.frames != [] ==> !Top(s).complete) ==> NotStranded(Step(s, e))
  {
    match e
    case Wait => WaitKeeps(s);
    case Leave => LeaveKeeps(s);
    case Complete(i) => if i < |s.frames| && !s.frames[i].complete { CompleteKeeps(s, i); }
  }

  lemma {:induction false} RunKeeps(s: Loops, es: seq<Event>)
    requires IsRun(s, es) && Inv(s)
    ensures Inv(Run(s, es)) && (NotStranded(s) && IsGuarded(s, es) ==> NotStranded(Run(s, es)))
    decreases |es|
  {
    if es != [] {
      StepKeeps(s, es[0]);
      RunKeeps(Step(s, es[0]), es[1..]);
    }
  }

  /**
   In every reachable state the debts and the missing decrements of nested_ add up to the completed
   waiters; nested_ is never decremented below what the live frames need; and when all waits have
   returned, nested_ is 0 again and the outermost loop has not been told to quit.
   */
  lemma StackBalance(es: seq<Event>)
    requires IsRun(START, es)
    ensures var s := Run(START, es);
            && Debts(s.frames) + (|s.frames| - s.nested) == Completed(s.frames)
            && (Completed(s.frames) < |s.frames| ==> s.nested > 0)
            && (s.frames == [] ==> s.nested == 0 && !s.waitFinished)
  {
    RunKeeps(START, es);
  }

  /** If no wait starts over a completed innermost waiter, a completed innermost waiter always finds WaitFinished set. */
  lemma NoCompletedWaiterIsStranded(es: seq<Event>)
    requires IsRun(START, es) && IsGuarded(START, es)
    ensures var s := Run(START, es);
            s.frames != [] && Top(s).complete ==> Enabled(s, Leave)
  {
    RunKeeps(START, es);
  }

  /** The guard is exact: from any state that breaks it, waiting and completing at once strands the waiter below. */
  lemma WaitOverCompletedStrands(s: Loops)
    requires Inv(s) && s.frames != [] && Top(s).complete
    ensures var es := [Wait, Complete(|s.frames|), Leave];
            IsRun(s, es) && Run(s, es) == s.(waitFinished := false)
  {
    var a := Step(s, Wait);
    var b := Step(a, Complete(|s.frames|));
    assert b.frames[..|s.frames|] == s.frames;
    var c := Step(b, Leave);
    var es := [Wait, Complete(|s.frames|), Leave];
    assert es[1..] == [Complete(|s.frames|), Leave] && es[1..][1..] == [Leave] && es[1..][1..][1..] == [];
    assert IsRun(c, []) && IsRun(b, [Leave]) && IsRun(a, es[1..]);
    assert Run(b, [Leave]) == Run(c, []) && Run(a, es[1..]) == Run(b, [Leave]);
  }

  // ---- Progress ----

  function Leaves(n: nat): seq<Event> {
    seq(n, _ => Leave)
  }

  /** When every waiter from frame k up is complete, their waits return one after the other, down to frame k. */
  lemma {:induction false} CompletedWaitsReturn(s: Loops, k: nat)
    requires Inv(s) && NotStranded(s) && k <= |s.frames|
    requires forall i :: k <= i < |s.frames| ==> s.frames[i].complete
    ensures var es := Leaves(|s.frames| - k);
            IsRun(s, es) && Run(s, es).frames == s.frames[..k]
    decreases |s.frames|
  {
    var es := Leaves(|s.frames| - k);
    if k < |s.frames| {
      var d := Step(s, Leave);
      LeaveKeeps(s);
      CompletedWaitsReturn(d, k);
      assert es[1..] == Leaves(|d.frames| - k);
    } else {
      assert s.frames[..k] == s.frames;
    }
  }

  /** A loop that is told to quit ends its wait exactly when that wait's waiter is complete; otherwise it is entered again. */
  lemma WaitReturnsIff(s: Loops)
    requires s.frames != [] && s.waitFinished
    ensures Enabled(s, Leave)
    ensures var d, n := Step(s, Leave), |s.frames|; var t := s.frames[n - 1];
            && (d.frames == s.frames[..n - 1] <==> t.complete)
            && (!t.complete ==> d.frames == s.frames[..n - 1] + [Frame(s.nested + 1, t.debt + 1, false)] && d.nested == s.nested + 1)
            && (t.complete ==> d.nested == if s.nested < t.debt then 0 else s.nested - t.debt)
            && (d.waitFinished <==> t.level > s.nested + 1 || (t.complete && t.debt > 0))
  {
    var d, n := Step(s, Leave), |s.frames|;
    assert |s.frames[..n - 1]| == n - 1;
  }

  /** An unfinished innermost wait re-enters its loop at most twice before WaitFinished is clear again. */
  lemma ReentryClears(s: Loops)
    requires Inv(s) && Enabled(s, Leave) && !Top(s).complete
    ensures var d := Step(s, Leave);
            d.waitFinished ==> Enabled(d, Leave) && !Step(d, Leave).waitFinished
  {
  }
}

module WaiterModel {
  import opened WaiterSpec

  class EventThread {
    var nested: nat
    var waitFinished: bool
    var frames: seq<Frame>

    function View(): Loops
      reads this
    {
      Loops(frames, nested, waitFinished)
    }

    constructor ()
      ensures View() == START
    {
      nested, waitFinished, frames := 0, false, [];
    }

    /** `quit` on a running thread. */
    method Quit()
      modifies this`nested, this`waitFinished
      ensures View() == Quits(old(View()), 1)
      ensures waitFinished && nested == if old(nested) == 0 then 0 else old(nested) - 1
    {
      if nested != 0 { nested := nested - 1; }
      waitFinished := true;
    }

    /** `Waiter::complete` of the waiter in frame i. */
    method CompleteWaiter(i: nat)
      modifies this
      ensures View() == Step(old(View()), Complete(i))
      ensures if i < |old(frames)| && !old(frames)[i].complete
              then frames == old(frames)[i := old(frames)[i].(complete := true)] && waitFinished
              else frames == old(frames) && nested == old(nested) && waitFinished == old(waitFinished)
    {
      if i >= |frames| || frames[i].complete { return; }
      Quit();
      frames := frames[i := frames[i].(complete := true)];
    }

    /** The start of a nested `exec`; returns the frame's level. */
    method EnterExec() returns (level: nat)
      modifies this`nested
      ensures nested == old(nested) + 1 && level == nested
    {
      nested := nested + 1;
      level := nested;
    }

    method BeginWait()
      modifies this
      ensures View() == Step(old(View()), Wait)
      ensures frames == old(frames) + [Frame(nested, 0, false)] && nested == old(nested) + 1 && waitFinished == old(waitFinished)
    {
      var level := EnterExec();
      frames := frames + [Frame(level, 0, false)];
    }

    /** The innermost `exec` returns and `wait` goes on: another round, or the debt is paid. */
    method LeaveExec()
      requires Enabled(View(), Leave)
      modifies this
      ensures View() == Step(old(View()), Leave)
      ensures var n := |old(frames)|; var t := old(frames)[n - 1];
              && frames == old(frames)[..n - 1] + (if t.complete then [] else [Frame(nested, t.debt + 1, false)])
              && nested == (if !t.complete then old(nested) + 1 else if old(nested) < t.debt then 0 else old(nested) - t.debt)
              && (waitFinished <==> t.level > old(nested) + 1 || (t.complete && t.debt > 0))
    {
      var t := frames[|frames| - 1];
      frames := frames[..|frames| - 1];
      if t.level - 1 <= nested { waitFinished := false; }
      if !t.complete {
        var level := EnterExec();
        frames := frames + [Frame(level, t.debt + 1, false)];
        return;
      }
      var q := t.debt;
      ghost var before := View();
      while q > 0
        invariant 0 <= q <= t.debt && View() == Quits(before, t.debt - q)
      {
        Quit();
        q := q - 1;
      }
    }
  }
}
