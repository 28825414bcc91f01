/**
 The keep-alive exchange between two connected sockets. The request and the
 answer are the same frame; which one it is depends only on whether the
 receiver is itself waiting (flag 0x02).
 */
module KeepAliveSpec {
  datatype Msg = KeepAlive | Data
  datatype Side = A | B

  /** One endpoint: its waiting flag, and the frames on their way to it, oldest first. */
  datatype End = End(waiting: bool, inbox: seq<Msg>)
  datatype Net = Net(a: End, b: End)

  /** `Timer` is a timer event that finds no request outstanding; `Send` puts any other frame on the link. */
  datatype Event = Timer(s: Side) | Send(to: Side) | Deliver(s: Side)

  const QUIET := Net(End(false, []), End(false, []))

  function Other(s: Side): Side { if s == A then B else A }

  function At(n: Net, s: Side): End { if s == A then n.a else n.b }

  function With(n: Net, s: Side, e: End): Net { if s == A then n.(a := e) else n.(b := e) }

  function Put(n: Net, to: Side, m: Msg): Net {
    With(n, to, At(n, to).(inbox := At(n, to).inbox + [m]))
  }

  predicate Enabled(n: Net, e: Event) {
    match e
    case Timer(s) => !At(n, s).waiting
    case Send(_) => true
    case Deliver(s) => At(n, s).inbox != []
  }

  function Step(n: Net, e: Event): Net
    requires Enabled(n, e)
  {
    match e
    case Timer(s) => Put(With(n, s, At(n, s).(waiting := true)), Other(s), KeepAlive)
    case Send(to) => Put(n, to, Data)
    case Deliver(s) =>
      var end := At(n, s);
      var m := With(n, s, end.(inbox := end.inbox[1..]));
      if end.inbox[0] == Data then m
      else if end.waiting then With(m, s, At(m, s).(waiting := false))
      else Put(m, Other(s), KeepAlive)
  }

  /** A request goes to the other end and is waited for; anything else does not touch the flags. */
  lemma SendEffect(n: Net, s: Side)
    requires !At(n, s).waiting
    ensures Enabled(n, Timer(s))
    ensures var m, o := Step(n, Timer(s)), if s == A then B else A;
            At(m, s) == End(true, At(n, s).inbox) && At(m, o) == End(At(n, o).waiting, At(n, o).inbox + [KeepAlive])
  {
  }

  /** A keep-alive ends the wait of an endpoint that waits, and is answered by one that does not. */
  lemma DeliverEffect(n: Net, s: Side)
    requires At(n, s).inbox != []
    ensures Enabled(n, Deliver(s))
    ensures var m, o := Step(n, Deliver(s)), if s == A then B else A;
            var alive := At(n, s).inbox[0] == KeepAlive;
            && At(m, s) == End(At(n, s).waiting && !alive, At(n, s).inbox[1..])
            && At(m, o) == End(At(n, o).waiting, At(n, o).inbox + if alive && !At(n, s).waiting then [KeepAlive] else [])
  {
  }

  lemma RunCons(n: Net, e: Event, es: seq<Event>)
    requires Enabled(n, e) && IsRun(Step(n, e), es)
    ensures IsRun(n, [e] + es) && Run(n, [e] + es) == Run(Step(n, e), es)
  {
    hide Step, Enabled;
    assert ([e] + es)[1..] == es;
  }

  /** An undisturbed exchange: request, answer, silence. */
  lemma ExchangeCompletes(s: Side)
    ensures var o := if s == A then B else A;
            var es := [Timer(s), Deliver(o), Deliver(s)];
            IsRun(QUIET, es) && Run(QUIET, es) == QUIET
  {
    var o := if s == A then B else A;
    var a := Step(QUIET, Timer(s));
    var b := Step(a, Deliver(o));
    assert Enabled(b, Deliver(s)) && Step(b, Deliver(s)) == QUIET;
    hide Step, Enabled;
    RunCons(b, Deliver(s), []);
    RunCons(a, Deliver(o), [Deliver(s)]);
    RunCons(QUIET, Timer(s), [Deliver(o), Deliver(s)]);
    assert [Deliver(s)] + [] == [Deliver(s)] && [Deliver(o)] + [Deliver(s)] == [Deliver(o), Deliver(s)];
    assert [Timer(s)] + [Deliver(o), Deliver(s)] == [Timer(s), Deliver(o), Deliver(s)];
  }

  function InFlight(n: Net): nat {
    Count(n.a.inbox) + Count(n.b.inbox)
  }

  function Waiting(n: Net): nat {
    (if n.a.waiting then 1 else 0) + (if n.b.waiting then 1 else 0)
  }

  /** Keep-alives in flight are as many as the endpoints waiting for one. */
  ghost predicate Conserved(n: Net) { InFlight(n) == Waiting(n) }

  /** Deliveries of keep-alives still to come if nobody starts a new exchange. */
  function Remaining(n: Net): nat {
    if Waiting(n) == 0 then 0
    else if Waiting(n) == 2 then 3
    else if KeepAlive in (if n.a.waiting then n.a.inbox else n.b.inbox) then 1
    else 2
  }

  function Work(n: Net): nat { |n.a.inbox| + |n.b.inbox| + Remaining(n) }

  lemma TakeFirst(inbox: seq<Msg>)
    requires inbox != []
    ensures multiset(inbox) == multiset{inbox[0]} + multiset(inbox[1..])
  {
    assert inbox == [inbox[0]] + inbox[1..];
  }

  function Count(inbox: seq<Msg>): nat { multiset(inbox)[KeepAlive] }

  lemma CountPut(inbox: seq<Msg>, m: Msg)
    ensures Count(inbox + [m]) == Count(inbox) + if m == KeepAlive then 1 else 0
  {
  }

  lemma CountTake(inbox: seq<Msg>)
    requires inbox != []
    ensures Count(inbox) == Count(inbox[1..]) + if inbox[0] == KeepAlive then 1 else 0
  {
    TakeFirst(inbox);
  }

  lemma StepKeeps(n: Net, e: Event)
    requires Conserved(n) && Enabled(n, e)
    ensures Conserved(Step(n, e))
  {
    CountPut(n.a.inbox, KeepAlive);
    CountPut(n.b.inbox, KeepAlive);
    CountPut(n.a.inbox, Data);
    CountPut(n.b.inbox, Data);
    if e.Deliver? { CountTake(At(n, e.s).inbox); }
    hide Count;
  }

  /** With no new request, every delivery is one step nearer to silence. */
  lemma DeliveryDrains(n: Net, s: Side)
    requires Conserved(n) && Enabled(n, Deliver(s))
    ensures Work(Step(n, Deliver(s))) < Work(n)
  {
    var m := Step(n, Deliver(s));
    TakeFirst(At(n, s).inbox);
    assert forall inbox: seq<Msg> :: KeepAlive in inbox <==> multiset(inbox)[KeepAlive] > 0;
  }

  ghost predicate IsRun(n: Net, es: seq<Event>)
    decreases |es|
  {
    es == [] || (Enabled(n, es[0]) && IsRun(Step(n, es[0]), es[1..]))
  }

  ghost function Run(n: Net, es: seq<Event>): Net
    requires IsRun(n, es)
    decreases |es|
  {
    if es == [] then n else Run(Step(n, es[0]), es[1..])
  }

  lemma {:induction false} RunKeeps(n: Net, es: seq<Event>)
    requires IsRun(n, es) && Conserved(n)
    ensures Conserved(Run(n, es))
    decreases |es|
  {
    hide Conserved, Step, Enabled;
    if es != [] {
      StepKeeps(n, es[0]);
      RunKeeps(Step(n, es[0]), es[1..]);
    }
  }

  /** At every moment the keep-alives in flight equal the endpoints waiting, so there are at most two. */
  lemma KeepAlivesAreConserved(es: seq<Event>)
    requires IsRun(QUIET, es)
    ensures var n := Run(QUIET, es); InFlight(n) == Waiting(n) <= 2
  {
    RunKeeps(QUIET, es);
  }

  lemma {:induction false} DrainIsBounded(n: Net, es: seq<Event>)
    requires IsRun(n, es) && Conserved(n) && forall e :: e in es ==> e.Deliver?
    ensures |es| + Work(Run(n, es)) <= Work(n)
    decreases |es|
  {
    hide Step, Enabled, Conserved, Work;
    if es != [] {
      assert es[0].Deliver?;
      StepKeeps(n, es[0]);
      DeliveryDrains(n, es[0].s);
      DrainIsBounded(Step(n, es[0]), es[1..]);
    }
  }

  /**
   There is no endless ping-pong: from any reachable state, deliveries alone number at most three
   more than the frames in flight, and once the links are empty nobody is left waiting.
   */
  lemma ExchangeDrains(before: seq<Event>, es: seq<Event>)
    requires IsRun(QUIET, before) && IsRun(Run(QUIET, before), es) && forall e :: e in es ==> e.Deliver?
    ensures var n := Run(QUIET, before);
            var m := Run(n, es);
            && |es| <= |n.a.inbox| + |n.b.inbox| + 3
            && (m.a.inbox == [] && m.b.inbox == [] ==> !m.a.waiting && !m.b.waiting)
  {
    RunKeeps(QUIET, before);
    var n := Run(QUIET, before);
    DrainIsBounded(n, es);
    RunKeeps(n, es);
  }
}

module KeepAliveModel {
  import opened KeepAliveSpec

  /** What a socket's timer event leads to while it is active. */
  datatype Outcome = Requested | Disconnecting

  class Peer {
    var error: bool            // 0x01
    var waiting: bool          // 0x02
    var connecting: bool       // 0x04
    var userDisconnect: bool   // 0x08
    var enabled: bool          // 0x80
    var readTimeout: int
    var encrypting: bool       // sslConnection is 3
    var inbox: seq<Msg>

    function View(): End
      reads this
    {
      End(waiting, inbox)
    }

    predicate FlagsAre80()
      reads this
    {
      enabled && !error && !waiting && !connecting && !userDisconnect
    }

    method Write(to: Peer, m: Msg)
      modifies to`inbox
      ensures to.inbox == old(to.inbox) + [m]
    {
      to.inbox := to.inbox + [m];
    }

    method SendKeepAlive(to: Peer, request: bool)
      requires to != this
      modifies this`waiting, to`inbox
      ensures to.inbox == old(to.inbox) + [KeepAlive] && waiting == (old(waiting) || request)
    {
      Write(to, KeepAlive);
      if request { waiting := true; }
    }

    /** `timerEvent` of an active socket: a request only when none is outstanding, otherwise the connection is given up. */
    method TimerEvent(to: Peer) returns (outcome: Outcome)
      requires to != this
      modifies this`waiting, to`inbox
      ensures outcome == if old(FlagsAre80()) && !encrypting && readTimeout > 0 then Requested else Disconnecting
      ensures outcome == Requested ==>
                && old(Enabled(Net(View(), to.View()), Timer(A)))
                && Net(View(), to.View()) == old(Step(Net(View(), to.View()), Timer(A)))
                && waiting && !old(waiting) && to.inbox == old(to.inbox) + [KeepAlive]
      ensures outcome == Disconnecting ==> View() == old(View()) && to.View() == old(to.View())
    {
      if !encrypting && FlagsAre80() && readTimeout > 0 {
        SendKeepAlive(to, true);
        return Requested;
      }
      return Disconnecting;
    }

    /** The next frame from the peer is read. */
    method ReadFrame(to: Peer)
      requires to != this && inbox != []
      modifies this`waiting, this`inbox, to`inbox
      ensures Net(View(), to.View()) == old(Step(Net(View(), to.View()), Deliver(A)))
      ensures inbox == old(inbox)[1..] && waiting == (old(waiting) && old(inbox)[0] != KeepAlive)
      ensures to.inbox == old(to.inbox) + if old(inbox)[0] == KeepAlive && !old(waiting) then [KeepAlive] else []
    {
      var m := inbox[0];
      inbox := inbox[1..];
      if m == KeepAlive {
        if !waiting { SendKeepAlive(to, false); } else { waiting := false; }
      }
    }
  }
}
