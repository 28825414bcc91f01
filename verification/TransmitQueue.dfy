/**
 The transmit queue of a data-array socket whose thread is running: `transmit`
 (without waiting) checks the frame, then queues it encoded in a synchronous
 call on the socket's thread, and posts one `writeSocket` task when the queue
 was empty; the task writes everything queued. Other tasks, `writeSocket` among
 them, may run between the check and the call.
 */
module TransmitQueueSpec {
  import opened Wrappers
  import opened FrameParser

  /** maxWriteBuffers and maxWriteSize; a socket without a port disconnects when it refuses a frame. */
  datatype Config = Config(buffers: nat, size: nat, hasPort: bool)

  /** A frame that has left the queue, written to the socket or dropped because it was not active. */
  datatype Exit = Exit(frame: Bytes, written: bool)

  /** A frame that passed the check and is about to be queued. */
  datatype Call = Call(payload: Bytes, id: nat)

  datatype Queue = Queue(list: seq<Bytes>, tasks: nat, active: bool, calls: multiset<Call>, left: seq<Exit>,
                         accepted: seq<Bytes>)

  datatype Event = Check(call: Call) | Enqueue(call: Call) | WriteTask(overflow: bool) | SetActive(active: bool)

  const EMPTY := Queue([], 0, true, multiset{}, [], [])

  /** Conversion to the 32-bit `int` the program compares sizes in. */
  function ToInt32(n: int): int {
    (n + 0x8000_0000) % 0x1_0000_0000 - 0x8000_0000
  }

  function PayloadSizes(list: seq<Bytes>): seq<nat> {
    seq(|list|, i requires 0 <= i < |list| => if |list[i]| >= 8 then |list[i]| - 8 else 0)
  }

  /** The first check: the socket is active and the frame is not too big. */
  predicate Passes(q: Queue, c: Config, payload: Bytes) {
    q.active && ToInt32(|payload|) <= c.size
  }

  /** The queue lets a frame in while it is neither too long nor, before this frame, too big. */
  predicate HasRoom(q: Queue, c: Config) {
    |q.list| < c.buffers && Sum(PayloadSizes(q.list)) <= c.size
  }

  function Refused(q: Queue, c: Config): Queue {
    q.(active := q.active && c.hasPort)
  }

  function Queued(q: Queue, f: Bytes): Queue {
    q.(list := q.list + [f], accepted := q.accepted + [f], tasks := q.tasks + if q.list == [] then 1 else 0)
  }

  function Step(q: Queue, e: Event, c: Config): Queue {
    match e
    case SetActive(a) => q.(active := a)
    case Check(call) =>
      if Passes(q, c, call.payload) then q.(calls := q.calls + multiset{call}) else Refused(q, c)
    case Enqueue(call) =>
      if call !in q.calls then q
      else
        var r := q.(calls := q.calls - multiset{call});
        if HasRoom(q, c) then Queued(r, EncodeFrame(call.payload, call.id)) else Refused(r, c)
    case WriteTask(overflow) =>
      if q.tasks == 0 then q
      else q.(tasks := q.tasks - 1, list := [], left := q.left + Exits(q.list, q.active), active := q.active && !overflow)
  }

  function Exits(list: seq<Bytes>, written: bool): seq<Exit> {
    seq(|list|, i requires 0 <= i < |list| => Exit(list[i], written))
  }

  function Frames(left: seq<Exit>): seq<Bytes> {
    seq(|left|, i requires 0 <= i < |left| => left[i].frame)
  }

  ghost predicate Inv(q: Queue, c: Config) {
    && q.tasks == (if q.list == [] then 0 else 1)
    && q.accepted == Frames(q.left) + q.list
    && |q.list| <= c.buffers
    && Sum(PayloadSizes(q.list)) <= 2 * c.size
    && (forall f :: f in q.list ==> |f| >= 8)
    && (forall call :: call in q.calls ==> |call.payload| <= c.size)
  }

  lemma QueuedSizes(q: Queue, c: Config)
    requires Inv(q, c)
    ensures var sizes := PayloadSizes(q.list);
            && |sizes| == |q.list| && Sum(sizes) <= 2 * c.size
            && forall i :: 0 <= i < |sizes| ==> sizes[i] == |q.list[i]| - 8
  {
    forall i | 0 <= i < |q.list|
      ensures |q.list[i]| >= 8
    {
      assert q.list[i] in q.list;
    }
  }

  lemma SumNothing(sizes: seq<nat>)
    ensures Sum(sizes[..0]) == 0
  {
  }

  /** No array of 2^31 bytes or more, whose size would turn negative. */
  ghost predicate Reasonable(e: Event) {
    e.Check? ==> |e.call.payload| < 0x8000_0000
  }

  lemma SmallToInt32(n: nat)
    requires n < 0x8000_0000
    ensures ToInt32(n) == n
  {
  }

  lemma CheckKeeps(q: Queue, call: Call, c: Config)
    requires Inv(q, c) && |call.payload| < 0x8000_0000
    ensures Inv(Step(q, Check(call), c), c)
  {
    SmallToInt32(|call.payload|);
  }

  lemma EnqueueKeeps(q: Queue, call: Call, c: Config)
    requires Inv(q, c)
    ensures Inv(Step(q, Enqueue(call), c), c)
  {
    FrameLength(call);
    hide EncodeFrame, PayloadSizes, Sum, Frames;
    if call in q.calls && HasRoom(q, c) {
      var f := EncodeFrame(call.payload, call.id);
      PayloadSnoc(q.list, f);
      assert (Frames(q.left) + q.list) + [f] == Frames(q.left) + (q.list + [f]);
    }
  }

  lemma FrameLength(call: Call)
    ensures |EncodeFrame(call.payload, call.id)| == 8 + |call.payload|
  {
  }

  lemma PayloadSnoc(list: seq<Bytes>, f: Bytes)
    requires |f| >= 8
    ensures Sum(PayloadSizes(list + [f])) == Sum(PayloadSizes(list)) + |f| - 8
  {
    SumSnoc(PayloadSizes(list), |f| - 8);
    assert PayloadSizes(list + [f]) == PayloadSizes(list) + [|f| - 8];
  }

  lemma StepKeeps(q: Queue, e: Event, c: Config)
    requires Inv(q, c) && Reasonable(e)
    ensures Inv(Step(q, e, c), c)
  {
    match e
    case SetActive(_) =>
    case Check(call) => CheckKeeps(q, call, c);
    case Enqueue(call) => EnqueueKeeps(q, call, c);
    case WriteTask(_) => assert Frames(q.left + Exits(q.list, q.active)) == Frames(q.left) + q.list;
  }

  function Run(es: seq<Event>, c: Config): Queue {
    if es == [] then EMPTY else Step(Run(es[..|es| - 1], c), es[|es| - 1], c)
  }

  /**
   Exactly one write task is pending while frames are queued and none otherwise, so no frame is
   stranded; frames leave in the order they were accepted; and the queue's length and total payload
   stay bounded.
   */
  lemma {:induction false} QueueIsServed(es: seq<Event>, c: Config)
    requires forall e :: e in es ==> Reasonable(e)
    ensures var q := Run(es, c);
            && q.tasks == (if q.list == [] then 0 else 1)
            && q.accepted == Frames(q.left) + q.list
            && |q.list| <= c.buffers && Sum(PayloadSizes(q.list)) <= 2 * c.size
    ensures Inv(Run(es, c), c)
  {
    if es != [] {
      QueueIsServed(es[..|es| - 1], c);
      StepKeeps(Run(es[..|es| - 1], c), es[|es| - 1], c);
    }
  }

  /** A queue left alone by the connection has everything accepted written after its one pending task. */
  lemma TaskWritesAll(q: Queue, c: Config)
    requires Inv(q, c) && q.active
    ensures var d := Step(q, WriteTask(false), c);
            && d.list == [] && d.tasks == 0 && Frames(d.left) == q.accepted
            && forall i :: |q.left| <= i < |d.left| ==> d.left[i].written
  {
    assert Frames(q.left + Exits(q.list, true)) == Frames(q.left) + q.list;
  }

  /**
   A frame that passed the check is refused exactly when as many frames are queued as the limit allows or
   their payloads are already more than it does; otherwise it is queued last, with a write task if it is alone.
   */
  lemma EnqueueIff(q: Queue, call: Call, c: Config)
    requires call in q.calls
    ensures var d, ok := Step(q, Enqueue(call), c), |q.list| < c.buffers && Sum(PayloadSizes(q.list)) <= c.size;
            && d.list == (if ok then q.list + [EncodeFrame(call.payload, call.id)] else q.list)
            && d.accepted == (if ok then q.accepted + [EncodeFrame(call.payload, call.id)] else q.accepted)
            && d.tasks == q.tasks + (if ok && q.list == [] then 1 else 0)
            && d.active == (q.active && (ok || c.hasPort))
            && d.calls == q.calls - multiset{call} && d.left == q.left
  {
    hide EncodeFrame, Sum, PayloadSizes;
  }

  /** Below 2^31 bytes a frame passes the check exactly when the socket is active and the frame within the limit. */
  lemma CheckIff(q: Queue, call: Call, c: Config)
    requires |call.payload| < 0x8000_0000
    ensures var d := Step(q, Check(call), c);
            && d.calls == (if q.active && |call.payload| <= c.size then q.calls + multiset{call} else q.calls)
            && d.active == (q.active && (|call.payload| <= c.size || c.hasPort))
            && d.list == q.list && d.tasks == q.tasks && d.accepted == q.accepted && d.left == q.left
  {
    SmallToInt32(|call.payload|);
  }

  /** The write task empties the queue, in order: onto an active socket, or nowhere. */
  lemma WriteTaskEffect(q: Queue, overflow: bool, c: Config)
    requires q.tasks > 0
    ensures var d := Step(q, WriteTask(overflow), c);
            && d.list == [] && d.tasks == q.tasks - 1 && d.accepted == q.accepted && d.calls == q.calls
            && d.active == (q.active && !overflow)
            && |d.left| == |q.left| + |q.list| && d.left[..|q.left|] == q.left
            && forall i :: 0 <= i < |q.list| ==> d.left[|q.left| + i] == Exit(q.list[i], q.active)
  {
  }

  /** On the socket's own thread the pending task runs first, so a frame that passed the check finds the queue empty. */
  lemma OwnThreadFindsRoom(q: Queue, call: Call, overflow: bool, c: Config)
    requires Inv(q, c) && call in q.calls && c.buffers > 0
    ensures var d := Step(Step(q, WriteTask(overflow), c), Enqueue(call), c);
            d.list == [EncodeFrame(call.payload, call.id)] && d.tasks == 1
  {
    hide EncodeFrame;
    assert Sum(PayloadSizes([])) == 0;
    var t := Step(q, WriteTask(overflow), c);
    assert t.list == [] && t.tasks == 0 && HasRoom(t, c);
  }

  /** The size check is sound exactly below 2^31 bytes: from there on the converted size is negative or small. */
  lemma SizeCheckIff(q: Queue, c: Config, payload: Bytes)
    requires Passes(q, c, payload) && c.size < 0x8000_0000
    ensures |payload| <= c.size <==> |payload| < 0x8000_0000
  {
    if |payload| < 0x8000_0000 { SmallToInt32(|payload|); }
  }
}

module TransmitQueueModel {
  import opened Wrappers
  import opened FrameParser
  import opened FrameSocket
  import opened TransmitQueueSpec

  class Transmitter {
    const maxWriteBuffers: nat
    const maxWriteSize: nat
    const hasPort: bool
    var transmitList: seq<Bytes>
    var tasks: nat
    var active: bool
    ghost var calls: multiset<Call>
    ghost var left: seq<Exit>
    ghost var accepted: seq<Bytes>

    function Conf(): Config { Config(maxWriteBuffers, maxWriteSize, hasPort) }

    ghost function View(): Queue
      reads this
    {
      Queue(transmitList, tasks, active, calls, left, accepted)
    }

    constructor (buffers: nat, size: nat, hasPort: bool)
      ensures View() == TransmitQueueSpec.EMPTY && Conf() == Config(buffers, size, hasPort)
    {
      maxWriteBuffers, maxWriteSize, this.hasPort := buffers, size, hasPort;
      transmitList, tasks, active, calls, left, accepted := [], 0, true, multiset{}, [], [];
    }

    method Refuse()
      modifies this`active
      ensures active == (old(active) && hasPort)
    {
      if !hasPort { active := false; }
    }

    /** The running sum of queued payloads, in a 32-bit int that never overflows for sizes below 2^30. */
    method Overflows() returns (over: bool)
      requires Inv(View(), Conf()) && maxWriteSize < 0x4000_0000
      ensures over == (Sum(PayloadSizes(transmitList)) > maxWriteSize)
    {
      var size := 0;
      ghost var sizes := PayloadSizes(transmitList);
      QueuedSizes(View(), Conf());
      SumNothing(sizes);
      hide Inv, Sum, ToInt32, PayloadSizes;
      for i := 0 to |transmitList|
        invariant size == Sum(sizes[..i]) <= maxWriteSize
      {
        SumMono(sizes, i);
        SmallToInt32(size + (|transmitList[i]| - 8));
        size := ToInt32(size + (|transmitList[i]| - 8));
        if size > maxWriteSize { return true; }
      }
      assert sizes[..|transmitList|] == sizes;
      return false;
    }

    /** The first half of `transmit`, on the calling thread. */
    method CheckFrame(payload: Bytes, id: nat) returns (ok: bool)
      modifies this`active, this`calls
      ensures ok == old(Passes(View(), Conf(), payload))
      ensures ok <==> old(active) && ToInt32(|payload|) <= maxWriteSize
      ensures active == (old(active) && (ok || hasPort))
      ensures View() == TransmitQueueSpec.Step(old(View()), Check(Call(payload, id)), Conf())
    {
      if !active { return false; }
      if ToInt32(|payload|) > maxWriteSize {
        Refuse();
        return false;
      }
      calls := calls + multiset{Call(payload, id)};
      return true;
    }

    /** The synchronous call, on the socket's thread; it no longer looks at the state. */
    method EnqueueFrame(payload: Bytes, id: nat) returns (ok: bool)
      requires Inv(View(), Conf()) && maxWriteSize < 0x4000_0000 && Call(payload, id) in calls
      modifies this
      ensures ok == old(HasRoom(View(), Conf()))
      ensures ok <==> |old(transmitList)| < maxWriteBuffers && Sum(PayloadSizes(old(transmitList))) <= maxWriteSize
      ensures transmitList == if ok then old(transmitList) + [EncodeFrame(payload, id)] else old(transmitList)
      ensures tasks == old(tasks) + (if ok && old(transmitList) == [] then 1 else 0)
      ensures active == (old(active) && (ok || hasPort))
      ensures View() == TransmitQueueSpec.Step(old(View()), Enqueue(Call(payload, id)), Conf())
      ensures Inv(View(), Conf())
    {
      StepKeeps(View(), Enqueue(Call(payload, id)), Conf());
      EnqueueIff(View(), Call(payload, id), Conf());
      hide Inv, EncodeFrame, Sum, PayloadSizes, Queued;
      var buffers := |transmitList|;
      var over := true;
      if buffers < maxWriteBuffers { over := Overflows(); }
      calls := calls - multiset{Call(payload, id)};
      if over {
        Refuse();
        return false;
      }
      PushFrame(payload, id);
      return true;
    }

    /** The frame is queued, with a write task if it is the first. */
    method PushFrame(payload: Bytes, id: nat)
      modifies this`transmitList, this`accepted, this`tasks
      ensures View() == Queued(old(View()), EncodeFrame(payload, id))
    {
      var da := EncodeFrame(payload, id);
      var first := transmitList == [];
      transmitList := transmitList + [da];
      accepted := accepted + [da];
      if first { tasks := tasks + 1; }
    }

    /** `transmit` on the socket's own thread: the call first runs the tasks posted before it. */
    method Send(payload: Bytes, id: nat, overflow: bool) returns (ok: bool)
      requires Inv(View(), Conf()) && maxWriteSize < 0x4000_0000 && |payload| < 0x8000_0000
      modifies this
      ensures Inv(View(), Conf())
      ensures var c, call := Conf(), Call(payload, id);
              var q := TransmitQueueSpec.Step(old(View()), Check(call), c);
              View() == if old(Passes(View(), c, payload))
                        then TransmitQueueSpec.Step(TransmitQueueSpec.Step(q, WriteTask(overflow), c), Enqueue(call), c)
                        else q
    {
      StepKeeps(View(), Check(Call(payload, id)), Conf());
      ok := CheckFrame(payload, id);
      if !ok { return; }
      StepKeeps(View(), WriteTask(overflow), Conf());
      hide Inv;
      if tasks > 0 { WriteSocket(overflow); }
      ok := EnqueueFrame(payload, id);
    }

    /** One `writeSocket` task; `overflow` says whether the socket's own write buffer then exceeds its limit. */
    method WriteSocket(overflow: bool)
      requires tasks > 0
      modifies this
      ensures View() == TransmitQueueSpec.Step(old(View()), WriteTask(overflow), Conf())
      ensures transmitList == [] && tasks == old(tasks) - 1 && active == (old(active) && !overflow)
      ensures left == old(left) + Exits(old(transmitList), old(active))
    {
      tasks := tasks - 1;
      if !active {
        left := left + Exits(transmitList, false);
        transmitList := [];
        return;
      }
      ghost var todo := transmitList;
      while transmitList != []
        invariant |transmitList| <= |todo| && transmitList == todo[|todo| - |transmitList|..]
        invariant tasks == old(tasks) - 1 && active && accepted == old(accepted) && calls == old(calls)
        invariant left == old(left) + Exits(todo[..|todo| - |transmitList|], true)
      {
        left := left + [Exit(transmitList[0], true)];
        transmitList := transmitList[1..];
      }
      assert todo[..|todo|] == todo && transmitList == [];
      if overflow { active := false; }
    }
  }
}
