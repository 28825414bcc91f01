/**
 The write side of a plain socket. Bytes the operating system does not take at
 once spill into `wda` and leave on later PollOut events. What `::write`
 returns, and what the user's `writeEvent` does, are inputs.
 */
module SocketWriteSpec {
  import opened Wrappers

  datatype State = Connected | Active | Closing | Unconnected

  /**
   `waiting` is flag 0x80 and `armed` the PollOut registration; `scheduled` is flag 0x40.
   `sent` are the bytes the operating system took, `accepted` those the writers handed in;
   `cut` records a close forced by an error or by the peer.
   */
  datatype Socket = Socket(state: State, wda: Bytes, waiting: bool, armed: bool, scheduled: bool,
                           sent: Bytes, accepted: Bytes, cut: bool)

  /** A call made by the user: write some bytes, of which `::write` would take r (negative: none), or disconnect. */
  datatype Call = Write(data: Bytes, r: int) | Disconnect

  /** The result of flushing `wda`: r bytes taken; `again` says that a negative r means EAGAIN. */
  datatype Flush = Flush(r: int, again: bool)

  datatype Event =
    | User(call: Call)
    | PollOut(first: seq<Call>, flush: Flush, second: seq<Call>)
    | WriteTask(calls: seq<Call>)
    | Fail

  const OPEN := Socket(Active, [], false, false, false, [], [], false)

  function Taken(data: Bytes, r: int): nat
    requires r <= |data|
  {
    if r > 0 then r else 0
  }

  function WriteFd(s: Socket, data: Bytes, r: int): Socket
    requires r <= |data|
  {
    var t := s.(accepted := s.accepted + data);
    if s.wda != [] then t.(wda := s.wda + data)
    else if r < |data| then
      t.(wda := data[Taken(data, r)..], sent := s.sent + data[..Taken(data, r)],
         waiting := true, armed := s.armed || !s.waiting)
    else t.(sent := s.sent + data, scheduled := true)
  }

  function Close(s: Socket, cut: bool): Socket {
    if s.state == Unconnected then s
    else s.(state := Unconnected, wda := [], waiting := false, armed := false, cut := cut)
  }

  function DisconnectNow(s: Socket): Socket {
    if s.state == Unconnected || s.state == Closing then s
    else if s.wda == [] then Close(s.(state := Closing), false)
    else s.(state := Closing)
  }

  /** Writers stop once the socket is unconnected. */
  predicate CallOk(s: Socket, c: Call) {
    c.Write? ==> s.state != Unconnected && c.r <= |c.data|
  }

  function DoCall(s: Socket, c: Call): Socket
    requires CallOk(s, c)
  {
    if c.Write? then WriteFd(s, c.data, c.r) else DisconnectNow(s)
  }

  predicate CallsOk(s: Socket, cs: seq<Call>)
    decreases |cs|, 0
  {
    cs == [] || (CallsOk(s, cs[..|cs| - 1]) && CallOk(DoCalls(s, cs[..|cs| - 1]), cs[|cs| - 1]))
  }

  function DoCalls(s: Socket, cs: seq<Call>): Socket
    requires CallsOk(s, cs)
    decreases |cs|, 1
  {
    if cs == [] then s else DoCall(DoCalls(s, cs[..|cs| - 1]), cs[|cs| - 1])
  }

  /** Nothing is left to flush: disarm, and finish a pending disconnect. */
  function Emptied(s: Socket): Socket {
    var t := s.(waiting := false, armed := false);
    if s.state == Closing then Close(t, false) else t
  }

  function Flushed(s: Socket): Socket {
    s.(sent := s.sent + s.wda, wda := [])
  }

  /** The calls the user makes from the two `writeEvent`s of a PollOut event, and what the flush between them does. */
  predicate FlushOk(s: Socket, first: seq<Call>, f: Flush, second: seq<Call>) {
    && CallsOk(s, first)
    && var t := DoCalls(s, first);
       && f.r <= |t.wda|
       && (t.wda != [] && f.r == |t.wda| ==> CallsOk(Flushed(t), second))
  }

  /** The PollOut half of `pollEvent`. */
  function FlushHalf(s: Socket, first: seq<Call>, f: Flush, second: seq<Call>): Socket
    requires FlushOk(s, first, f, second)
  {
    var t := DoCalls(s, first);
    if t.wda == [] then Emptied(t)
    else if 0 < f.r < |t.wda| then t.(sent := t.sent + t.wda[..f.r], wda := t.wda[f.r..])
    else if f.r == |t.wda| then
      var u := DoCalls(Flushed(t), second);
      if u.wda == [] then Emptied(u) else u
    else if f.r == 0 || f.again then t
    else Close(t, true)
  }

  predicate Enabled(s: Socket, e: Event) {
    match e
    case User(c) => CallOk(s, c)
    case WriteTask(cs) => s.scheduled && (!s.waiting ==> CallsOk(s.(scheduled := false), cs))
    case Fail => s.state in {Active, Closing}
    case PollOut(first, f, second) => s.state in {Active, Closing} && FlushOk(s, first, f, second)
  }

  function Step(s: Socket, e: Event): Socket
    requires Enabled(s, e)
  {
    match e
    case User(c) => DoCall(s, c)
    case WriteTask(cs) =>
      var t := s.(scheduled := false);
      if s.waiting then t else DoCalls(t, cs)
    case Fail => Close(s, true)
    case PollOut(first, f, second) => FlushHalf(s, first, f, second)
  }

  // ---- Conservation ----

  /** What holds at every moment, also inside a PollOut event. */
  ghost predicate Conserving(s: Socket) {
    && (s.state != Unconnected ==> s.sent + s.wda == s.accepted && !s.cut)
    && (s.state == Unconnected ==> s.wda == [] && s.sent <= s.accepted && (!s.cut ==> s.sent == s.accepted))
    && (s.wda != [] ==> s.waiting)
    && (s.waiting <==> s.armed)
  }

  /** Between events, a socket that is closing still has bytes to flush. */
  ghost predicate Inv(s: Socket) {
    Conserving(s) && (s.state == Closing ==> s.wda != [])
  }

  lemma DoCallKeeps(s: Socket, c: Call)
    requires Conserving(s) && CallOk(s, c)
    ensures Conserving(DoCall(s, c))
    ensures Inv(s) ==> Inv(DoCall(s, c))
  {
    if c.Write? {
      assert s.sent + (s.wda + c.data) == s.sent + s.wda + c.data;
      var n := Taken(c.data, c.r);
      assert s.sent + c.data[..n] + c.data[n..] == s.sent + c.data;
    }
  }

  lemma {:induction false} DoCallsKeep(s: Socket, cs: seq<Call>)
    requires Conserving(s) && CallsOk(s, cs)
    ensures Conserving(DoCalls(s, cs)) && (Inv(s) ==> Inv(DoCalls(s, cs)))
    ensures s.state == Unconnected ==> DoCalls(s, cs) == s
  {
    if cs != [] {
      DoCallsKeep(s, cs[..|cs| - 1]);
      DoCallKeeps(DoCalls(s, cs[..|cs| - 1]), cs[|cs| - 1]);
    }
  }

  lemma FlushKeeps(s: Socket, first: seq<Call>, f: Flush, second: seq<Call>)
    requires Inv(s) && FlushOk(s, first, f, second)
    ensures Inv(FlushHalf(s, first, f, second))
  {
    var t := DoCalls(s, first);
    DoCallsKeep(s, first);
    if t.wda != [] {
      if 0 < f.r < |t.wda| {
        assert t.sent + t.wda[..f.r] + t.wda[f.r..] == t.sent + t.wda;
      } else if f.r == |t.wda| {
        DoCallsKeep(Flushed(t), second);
      }
    }
  }

  lemma StepKeeps(s: Socket, e: Event)
    requires Inv(s) && Enabled(s, e)
    ensures Inv(Step(s, e))
  {
    match e
    case User(c) => DoCallKeeps(s, c);
    case WriteTask(cs) => if !s.waiting { DoCallsKeep(s.(scheduled := false), cs); }
    case PollOut(first, f, second) => FlushKeeps(s, first, f, second);
    case Fail =>
  }

  ghost predicate IsRun(s: Socket, es: seq<Event>)
    decreases |es|
  {
    es == [] || (Enabled(s, es[0]) && IsRun(Step(s, es[0]), es[1..]))
  }

  ghost function Run(s: Socket, es: seq<Event>): Socket
    requires IsRun(s, es)
    decreases |es|
  {
    if es == [] then s else Run(Step(s, es[0]), es[1..])
  }

  lemma {:induction false} RunKeeps(s: Socket, es: seq<Event>)
    requires IsRun(s, es) && Inv(s)
    ensures Inv(Run(s, es))
    decreases |es|
  {
    if es != [] {
      StepKeeps(s, es[0]);
      RunKeeps(Step(s, es[0]), es[1..]);
    }
  }

  /**
   However the operating system takes the bytes: those it took followed by those spilled are those
   accepted, spilled bytes always have PollOut armed, and a disconnect not cut short by an error or
   the peer ends only after every accepted byte was handed over.
   */
  lemma BytesAreConserved(es: seq<Event>)
    requires IsRun(OPEN, es)
    ensures var s := Run(OPEN, es);
            && s.sent <= s.accepted
            && (s.state in {Active, Closing} ==> s.sent + s.wda == s.accepted)
            && (s.wda != [] ==> s.armed)
            && (s.state == Closing ==> s.armed)
            && (s.state == Unconnected && !s.cut ==> s.sent == s.accepted)
  {
    RunKeeps(OPEN, es);
  }

  /** n PollOut events with a silent user, each taking one byte. */
  function Trickle(n: nat): seq<Event> {
    seq(n, _ => PollOut([], Flush(1, false), []))
  }

  /** A closing socket whose peer keeps taking bytes, however few at a time, does reach Unconnected with everything sent. */
  lemma {:induction false} DisconnectCompletes(s: Socket)
    requires Inv(s) && s.state == Closing
    ensures IsRun(s, Trickle(|s.wda|))
    ensures var d := Run(s, Trickle(|s.wda|)); d.state == Unconnected && !d.cut && d.sent == s.accepted
    decreases |s.wda|
  {
    var es := Trickle(|s.wda|);
    var d := Step(s, es[0]);
    StepKeeps(s, es[0]);
    assert es[1..] == Trickle(|s.wda| - 1);
    if d.state == Closing { DisconnectCompletes(d); }
  }

  // ---- Activation ----

  /**
   A poll event on a connected, not yet active socket. `closed` is what the first look at the input
   finds, `readable` the second; `handler` are the calls made from `stateEvent`, `reading` those made
   from `readEvent`, and the rest is as in a PollOut event.
   */
  datatype Activation = Activation(pollIn: bool, pollOut: bool, closed: bool, handler: seq<Call>, readable: bool,
                                   reading: seq<Call>, first: seq<Call>, flush: Flush, second: seq<Call>)

  /** PollOut is disarmed without looking at `wda`, and the socket becomes active. */
  function Entered(s: Socket, e: Activation): Socket {
    s.(state := Active, armed := s.armed && !e.pollOut)
  }

  /** The event ends early: the peer has closed, `stateEvent` left the socket inactive, or there is no input. */
  predicate EndsEarly(s: Socket, e: Activation)
    requires CallsOk(Entered(s, e), e.handler)
  {
    DoCalls(Entered(s, e), e.handler).state != Active || !e.readable
  }

  /** The socket when the event reaches its PollOut half. */
  function AtFlush(s: Socket, e: Activation): Socket
    requires CallsOk(Entered(s, e), e.handler) && CallsOk(DoCalls(Entered(s, e), e.handler), e.reading)
  {
    DoCalls(DoCalls(Entered(s, e), e.handler), e.reading)
  }

  predicate ActivationOk(s: Socket, e: Activation) {
    && s.state == Connected
    && CallsOk(Entered(s, e), e.handler)
    && CallsOk(DoCalls(Entered(s, e), e.handler), e.reading)
    && FlushOk(AtFlush(s, e), e.first, e.flush, e.second)
    && (!e.pollIn ==> e.reading == [])
  }

  function Activate(s: Socket, e: Activation): Socket
    requires ActivationOk(s, e)
  {
    if e.pollIn && e.closed then Close(s, true)
    else if EndsEarly(s, e) then DoCalls(Entered(s, e), e.handler)
    else if !e.pollOut then AtFlush(s, e)
    else FlushHalf(AtFlush(s, e), e.first, e.flush, e.second)
  }

  /** Bytes wait for a PollOut that will not come. */
  ghost predicate Deaf(s: Socket) {
    s.state in {Active, Closing} && s.waiting && !s.armed && s.sent + s.wda == s.accepted && !s.cut
  }

  lemma {:induction false} DeafCalls(s: Socket, cs: seq<Call>)
    requires Deaf(s) && CallsOk(s, cs)
    ensures var d := DoCalls(s, cs); Deaf(d) || (d.state == Unconnected && Inv(d))
  {
    if cs != [] {
      var init := cs[..|cs| - 1];
      DeafCalls(s, init);
      var t := DoCalls(s, init);
      if Deaf(t) { DeafCall(t, cs[|cs| - 1]); } else { DoCallKeeps(t, cs[|cs| - 1]); }
    }
  }

  lemma DeafCall(s: Socket, c: Call)
    requires Deaf(s) && CallOk(s, c)
    ensures var d := DoCall(s, c); Deaf(d) || (d.state == Unconnected && Inv(d))
  {
    if c.Write? {
      var n := Taken(c.data, c.r);
      assert s.sent + (s.wda + c.data) == s.sent + s.wda + c.data;
      assert s.sent + c.data[..n] + c.data[n..] == s.sent + c.data;
    }
  }

  /** The PollOut half gets everything out, or gives the connection up. */
  predicate FlushEnds(s: Socket, first: seq<Call>, f: Flush, second: seq<Call>)
    requires FlushOk(s, first, f, second)
  {
    var t := DoCalls(s, first);
    t.wda == [] || (f.r == |t.wda| && DoCalls(Flushed(t), second).wda == []) || (f.r < 0 && !f.again)
  }

  lemma DeafFlush(s: Socket, first: seq<Call>, f: Flush, second: seq<Call>)
    requires (Deaf(s) || (s.state == Unconnected && Inv(s))) && FlushOk(s, first, f, second)
    ensures Inv(FlushHalf(s, first, f, second)) <==> FlushEnds(s, first, f, second)
  {
    var t := DoCalls(s, first);
    if Deaf(s) { DeafCalls(s, first); } else { DoCallsKeep(s, first); }
    hide DoCalls, CallsOk;
    if Deaf(t) {
      DeafFlushes(t, f, second);
    }
  }

  lemma DeafFlushes(t: Socket, f: Flush, second: seq<Call>)
    requires Deaf(t) && f.r <= |t.wda| && (t.wda != [] && f.r == |t.wda| ==> CallsOk(Flushed(t), second))
    ensures t.wda != [] && f.r == |t.wda| ==>
              var u := DoCalls(Flushed(t), second); Deaf(u) || (u.state == Unconnected && Inv(u))
    ensures t.wda != [] && 0 < f.r < |t.wda| ==> !Inv(t.(sent := t.sent + t.wda[..f.r], wda := t.wda[f.r..]))
  {
    if t.wda != [] && f.r == |t.wda| {
      assert Flushed(t).sent + [] == Flushed(t).sent;
      DeafCalls(Flushed(t), second);
    }
  }

  /**
   When the promise survives activation: the event brought no PollOut, or nothing was waiting for one,
   or the event itself closes the connection or gets to flush everything because there is input to read.
   */
  lemma ActivationKeepsArmedIff(s: Socket, e: Activation)
    requires Conserving(s) && ActivationOk(s, e)
    ensures Inv(Activate(s, e)) <==>
              || !e.pollOut || !s.waiting || (e.pollIn && e.closed)
              || DoCalls(Entered(s, e), e.handler).state == Unconnected
              || (!EndsEarly(s, e) && FlushEnds(AtFlush(s, e), e.first, e.flush, e.second))
  {
    var a := Entered(s, e);
    if e.pollIn && e.closed { return; }
    if !e.pollOut || !s.waiting {
      DoCallsKeep(a, e.handler);
      DoCallsKeep(DoCalls(a, e.handler), e.reading);
      FlushKeeps(AtFlush(s, e), e.first, e.flush, e.second);
    } else {
      DeafCalls(a, e.handler);
      var b := DoCalls(a, e.handler);
      if b.state == Active && e.readable {
        DeafCalls(b, e.reading);
        DeafFlush(AtFlush(s, e), e.first, e.flush, e.second);
      }
    }
  }

  /** With a silent user the condition is one on the event alone. */
  lemma SilentActivationIff(s: Socket, e: Activation)
    requires Conserving(s) && ActivationOk(s, e) && e.handler == e.reading == e.first == e.second == []
    ensures Inv(Activate(s, e)) <==>
              || !e.pollOut || !s.waiting || (e.pollIn && e.closed)
              || (e.readable && (s.wda == [] || e.flush.r == |s.wda| || (e.flush.r < 0 && !e.flush.again)))
  {
    ActivationKeepsArmedIff(s, e);
  }

  /** And when it does not survive, nothing waiting leaves any more, whatever is written. */
  lemma {:induction false} DeafStaysDeaf(s: Socket, es: seq<Event>)
    requires IsRun(s, es) && Deaf(s) && s.wda != []
    requires forall e :: e in es ==> e.WriteTask? || (e.User? && e.call.Write?)
    ensures var d := Run(s, es); Deaf(d) && d.sent == s.sent && s.wda <= d.wda
    decreases |es|
  {
    if es != [] {
      assert es[0].WriteTask? || (es[0].User? && es[0].call.Write?);
      var d := Step(s, es[0]);
      if es[0].User? { assert s.sent + (s.wda + es[0].call.data) == s.sent + s.wda + es[0].call.data; }
      DeafStaysDeaf(d, es[1..]);
    }
  }

  // ---- What one call does ----

  /**
   A write hands over the bytes taken at once and spills the rest behind what waits; PollOut is asked for
   when some of it was not taken, and the write task when all of it was.
   */
  lemma WriteEffect(s: Socket, data: Bytes, r: int)
    requires r <= |data|
    ensures var d, now := WriteFd(s, data, r), if s.wda != [] || r < 0 then 0 else r;
            && d.accepted == s.accepted + data
            && d.sent == s.sent + data[..now] && d.wda == s.wda + data[now..]
            && (d.scheduled <==> s.scheduled || (s.wda == [] && r >= |data|))
            && (d.waiting <==> s.waiting || (s.wda == [] && r < |data|))
            && (d.armed <==> s.armed || (s.wda == [] && r < |data| && !s.waiting))
            && d.state == s.state && d.cut == s.cut
  {
  }

  /** The writer will hear from the socket: PollOut is armed or a write task is pending. */
  ghost predicate Answered(s: Socket) { s.armed || s.scheduled }

  /** Every write is answered, and spilled bytes by PollOut. */
  lemma WriteIsAnswered(s: Socket, data: Bytes, r: int)
    requires Conserving(s) && s.state != Unconnected && r <= |data|
    ensures var d := WriteFd(s, data, r);
            && Answered(d)
            && ((s.wda != [] || r < |data|) && data != [] ==> d.wda != [] && d.waiting && d.armed)
            && (s.wda == [] && r == |data| ==> d.scheduled)
  {
  }

  /** The answer stays due until the socket calls `writeEvent` or is closed. */
  lemma AnswerStays(s: Socket, e: Event)
    requires Inv(s) && Answered(s) && Enabled(s, e) && (e.User? || (e.WriteTask? && s.waiting))
    ensures Answered(Step(s, e)) || Step(s, e).state == Unconnected
  {
  }

  /** A disconnect waits for spilled bytes; without any it ends at once. */
  lemma DisconnectEffect(s: Socket)
    requires s.state in {Connected, Active}
    ensures var d := DisconnectNow(s);
            && d.sent == s.sent && d.accepted == s.accepted && d.scheduled == s.scheduled && d.wda == s.wda
            && d.state == (if s.wda == [] then Unconnected else Closing)
            && (if s.wda == [] then !d.waiting && !d.armed && !d.cut
                else d.waiting == s.waiting && d.armed == s.armed && d.cut == s.cut)
  {
  }

  /** A PollOut event with a silent user. */
  lemma SilentFlushEffect(s: Socket, f: Flush)
    requires s.state in {Active, Closing} && f.r <= |s.wda|
    ensures Enabled(s, PollOut([], f, []))
    ensures var d := Step(s, PollOut([], f, []));
            && (s.wda != [] && 0 <= f.r < |s.wda| ==>
                  d == s.(sent := s.sent + s.wda[..f.r], wda := s.wda[f.r..]))
            && (s.wda == [] || f.r == |s.wda| ==>
                  && d.sent == s.sent + s.wda && d.wda == [] && !d.waiting && !d.armed
                  && d.state == if s.state == Closing then Unconnected else Active)
            && (s.wda != [] && f.r < 0 && f.again ==> d == s)
            && (s.wda != [] && f.r < 0 && !f.again ==> d.state == Unconnected && d.cut && d.sent == s.sent && d.wda == [])
  {
    var t := DoCalls(s, []);
    assert t == s;
    assert s.sent + [] == s.sent && s.wda[..|s.wda|] == s.wda && s.wda[0..] == s.wda;
  }

  /** The bytes of some calls. */
  function Written(cs: seq<Call>): Bytes {
    if cs == [] then []
    else Written(cs[..|cs| - 1]) + if cs[|cs| - 1].Write? then cs[|cs| - 1].data else []
  }

  lemma {:induction false} CallsAccept(s: Socket, cs: seq<Call>)
    requires CallsOk(s, cs)
    ensures DoCalls(s, cs).accepted == s.accepted + Written(cs) && s.sent <= DoCalls(s, cs).sent
  {
    if cs == [] {
      assert s.accepted + [] == s.accepted;
    } else {
      CallsAccept(s, cs[..|cs| - 1]);
      CallAccepts(DoCalls(s, cs[..|cs| - 1]), cs[|cs| - 1]);
      hide DoCall, CallOk;
      var data := if cs[|cs| - 1].Write? then cs[|cs| - 1].data else [];
      assert s.accepted + Written(cs[..|cs| - 1]) + data == s.accepted + Written(cs);
    }
  }

  lemma CallAccepts(s: Socket, c: Call)
    requires CallOk(s, c)
    ensures DoCall(s, c).accepted == s.accepted + (if c.Write? then c.data else [])
    ensures s.sent <= DoCall(s, c).sent
  {
  }

  /**
   `writeEvent` is called, and what it writes is accepted: by a write task unless PollOut is waited for,
   before the flush of a PollOut event, and again after a flush that got everything out.
   */
  lemma WriteEventIsCalled(s: Socket, e: Event)
    requires Enabled(s, e)
    ensures e.WriteTask? ==> Step(s, e).accepted == s.accepted + if s.waiting then [] else Written(e.calls)
    ensures e.PollOut? ==>
              var t := DoCalls(s, e.first);
              Step(s, e).accepted ==
                s.accepted + Written(e.first) + if t.wda != [] && e.flush.r == |t.wda| then Written(e.second) else []
  {
    hide DoCalls, CallsOk, Written;
    match e
    case WriteTask(cs) =>
      if !s.waiting { CallsAccept(s.(scheduled := false), cs); }
    case PollOut(first, f, second) => FlushAccepts(s, first, f, second);
    case _ =>
  }

  /** What the PollOut half accepts of its user's writes. */
  lemma FlushAccepts(s: Socket, first: seq<Call>, f: Flush, second: seq<Call>)
    requires FlushOk(s, first, f, second)
    ensures var t := DoCalls(s, first);
            FlushHalf(s, first, f, second).accepted ==
              s.accepted + Written(first) + if t.wda != [] && f.r == |t.wda| then Written(second) else []
  {
    hide DoCalls, CallsOk, Written;
    CallsAccept(s, first);
    var t := DoCalls(s, first);
    if t.wda != [] && f.r == |t.wda| { CallsAccept(Flushed(t), second); }
  }

  /** Activation runs every handler it reaches: the state's, the reader's once there is input, and the flush's. */
  lemma ActivationIsHeard(s: Socket, e: Activation)
    requires ActivationOk(s, e)
    ensures var d := Activate(s, e);
            && (e.pollIn && e.closed ==> d.state == Unconnected && d.accepted == s.accepted)
            && (!(e.pollIn && e.closed) && EndsEarly(s, e) ==> d.accepted == s.accepted + Written(e.handler))
            && (!(e.pollIn && e.closed) && !EndsEarly(s, e) ==>
                  s.accepted + Written(e.handler) + Written(e.reading) + (if e.pollOut then Written(e.first) else []) <= d.accepted)
  {
    hide DoCalls, CallsOk, Written, FlushHalf, FlushOk;
    var a := Entered(s, e);
    CallsAccept(a, e.handler);
    CallsAccept(DoCalls(a, e.handler), e.reading);
    FlushAccepts(AtFlush(s, e), e.first, e.flush, e.second);
  }
}

module SocketWriteModel {
  import opened Wrappers
  import opened SocketWriteSpec

  class AbstractSocket {
    var state: State
    var wda: Bytes
    var waiting: bool
    var armed: bool
    var scheduled: bool
    ghost var sent: Bytes
    ghost var accepted: Bytes
    ghost var cut: bool

    ghost function View(): Socket
      reads this
    {
      Socket(state, wda, waiting, armed, scheduled, sent, accepted, cut)
    }

    constructor (active: bool)
      ensures View() == OPEN.(state := if active then Active else Connected)
    {
      state, wda, waiting, armed, scheduled := if active then Active else Connected, [], false, false, false;
      sent, accepted, cut := [], [], false;
    }

    /** `write_fd` called by a writer; r is what `::write` would return. */
    method WriteBytes(data: Bytes, r: int) returns (n: nat)
      requires r <= |data|
      modifies this
      ensures n == |data| && View() == WriteFd(old(View()), data, r)
      ensures var now := if old(wda) != [] || r < 0 then 0 else r;
              && sent == old(sent) + data[..now] && wda == old(wda) + data[now..] && accepted == old(accepted) + data
              && (scheduled <==> old(scheduled) || (old(wda) == [] && r >= |data|))
              && (waiting <==> old(waiting) || (old(wda) == [] && r < |data|))
              && (armed <==> old(armed) || (old(wda) == [] && r < |data| && !old(waiting)))
    {
      n := |data|;
      accepted := accepted + data;
      if wda != [] {
        wda := wda + data;
        return;
      }
      var taken := if r > 0 then r else 0;
      sent := sent + data[..taken];
      if r < |data| {
        if !waiting {
          armed := true;
          waiting := true;
        }
        wda := wda + data[taken..];
      } else if !scheduled {
        scheduled := true;
      }
    }

    method CloseSocket(byError: bool)
      modifies this
      ensures View() == Close(old(View()), byError)
      ensures state == Unconnected && sent == old(sent) && accepted == old(accepted) && scheduled == old(scheduled)
      ensures old(state) != Unconnected ==> wda == [] && !waiting && !armed && cut == byError
    {
      if state == Unconnected { return; }
      armed := false;
      state := Unconnected;
      wda := [];
      waiting := false;
      cut := byError;
    }

    method Shutdown()
      modifies this
      ensures View() == DisconnectNow(old(View()))
      ensures state == if old(state) == Unconnected || (old(state) != Closing && wda == []) then Unconnected else Closing
      ensures wda == old(wda) && sent == old(sent) && accepted == old(accepted)
    {
      if state == Unconnected || state == Closing { return; }
      state := Closing;
      if wda == [] { CloseSocket(false); }
    }

    /** The user's `writeEvent`. */
    method UserWriteEvent(cs: seq<Call>)
      requires CallsOk(View(), cs)
      modifies this
      ensures View() == DoCalls(old(View()), cs) && accepted == old(accepted) + Written(cs)
    {
      CallsAccept(View(), cs);
      hide Written;
      ghost var start := View();
      CallsOkPrefixes(start, cs);
      for i := 0 to |cs|
        invariant View() == DoCalls(start, cs[..i])
      {
        assert cs[..i + 1][..i] == cs[..i];
        match cs[i]
        case Write(data, r) => var _ := WriteBytes(data, r);
        case Disconnect => Shutdown();
      }
      assert cs[..|cs|] == cs;
    }

    method Disarm()
      modifies this
      ensures View() == Emptied(old(View()))
      ensures !armed && !waiting && state == if old(state) == Closing then Unconnected else old(state)
    {
      armed := false;
      waiting := false;
      if state == Closing { CloseSocket(false); }
    }

    /** The PollOut half of `pollEvent`. */
    method PollOutEvent(first: seq<Call>, f: Flush, second: seq<Call>)
      requires FlushOk(View(), first, f, second)
      modifies this
      ensures View() == FlushHalf(old(View()), first, f, second)
      ensures old(state) in {Active, Closing} ==> View() == Step(old(View()), PollOut(first, f, second))
    {
      UserWriteEvent(first);
      if wda == [] {
        Disarm();
        return;
      }
      if f.r > 0 {
        assert f.r == |wda| ==> wda[..f.r] == wda;
        sent := sent + wda[..f.r];
        if f.r < |wda| {
          wda := wda[f.r..];
          return;
        }
        wda := [];
        UserWriteEvent(second);
        if wda == [] { Disarm(); }
        return;
      }
      if f.r < 0 {
        if f.again { return; }
        CloseSocket(true);
      }
    }

    /** `pollEvent` of a connected socket. */
    method PollConnected(e: Activation)
      requires ActivationOk(View(), e)
      modifies this
      ensures View() == Activate(old(View()), e)
    {
      if e.pollOut { armed := false; }
      if e.pollIn && e.closed {
        CloseSocket(true);
        return;
      }
      state := Active;
      UserWriteEvent(e.handler);
      if state != Active || !e.readable { return; }
      if e.pollIn { UserWriteEvent(e.reading); }
      if e.pollOut { PollOutEvent(e.first, e.flush, e.second); }
    }

    /** The task scheduled after a complete direct write. */
    method RunWriteTask(cs: seq<Call>)
      requires Enabled(View(), WriteTask(cs))
      modifies this
      ensures View() == Step(old(View()), WriteTask(cs))
      ensures accepted == old(accepted) + if old(waiting) then [] else Written(cs)
    {
      scheduled := false;
      if !waiting { UserWriteEvent(cs); }
    }
  }

  lemma {:induction false} CallsOkPrefixes(s: Socket, cs: seq<Call>)
    requires CallsOk(s, cs)
    ensures forall i :: 0 <= i <= |cs| ==> CallsOk(s, cs[..i])
    ensures forall i :: 0 <= i < |cs| ==> CallOk(DoCalls(s, cs[..i]), cs[i])
  {
    hide DoCall, CallOk;
    if cs != [] {
      var init := cs[..|cs| - 1];
      CallsOkPrefixes(s, init);
      assert forall i :: 0 <= i < |cs| ==> init[..i] == cs[..i];
      assert forall i :: 0 <= i < |init| ==> init[i] == cs[i];
      assert cs[..|cs|] == cs;
    }
  }
}
