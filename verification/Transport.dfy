/**
 The two halves of a connection together: what one end writes, however the
 operating system takes it, against what the other end delivers, however the
 bytes arrive.
 */
module Transport {
  import opened Wrappers
  import opened FrameParser
  import opened FrameQuota
  import Out = SocketWriteSpec
  import Queue = TransmitQueueSpec

  /**
   The sender's writers hand frames `fs` to the socket; the receiver has read some of the bytes the
   operating system took. Then the receiver has delivered the first of those frames, in order, and
   nothing else. Once the sender has disconnected without an error and all its bytes have been read,
   every frame has been delivered, unless the receiver's quota was hit.
   */
  lemma DeliveriesFollowWrites(writes: seq<Out.Event>, fs: seq<Delivery>, arrivals: seq<Event>, lim: Limits)
    requires forall d :: d in fs ==> Sendable(d)
    requires Out.IsRun(Out.OPEN, writes) && Out.Run(Out.OPEN, writes).accepted == EncodeFrames(fs)
    requires Stream(arrivals) <= Out.Run(Out.OPEN, writes).sent
    ensures var s, r := Out.Run(Out.OPEN, writes), Run(arrivals, lim);
            && r.done.out <= AllSeen(fs)
            && (s.state == Out.Unconnected && !s.cut && Stream(arrivals) == s.sent && !r.failed ==>
                  r.done.out == AllSeen(fs))
  {
    hide Run, Stream, EncodeFrames, Sendable;
    Out.BytesAreConserved(writes);
    hide Out.Run, Out.IsRun;
    DeliveriesArePrefix(fs, arrivals, lim);
  }

  // ---- From transmit to the other end ----

  /** The frames the transmit queue has accepted over a run, in order. */
  function AcceptedFrames(es: seq<Queue.Event>, c: Queue.Config): seq<Delivery> {
    if es == [] then []
    else
      AcceptedFrames(es[..|es| - 1], c) + AcceptedNow(Queue.Run(es[..|es| - 1], c), es[|es| - 1], c)
  }

  function Concat(frames: seq<Bytes>): Bytes {
    if frames == [] then [] else Concat(frames[..|frames| - 1]) + frames[|frames| - 1]
  }

  function Wires(fs: seq<Delivery>): seq<Bytes> {
    seq(|fs|, i requires 0 <= i < |fs| => Wire(fs[i]))
  }

  lemma WiresSnoc(fs: seq<Delivery>, f: Delivery)
    ensures Wires(fs + [f]) == Wires(fs) + [Wire(f)]
  {
    hide Wire;
  }

  /** The frames one event of the queue accepts. */
  function AcceptedNow(q: Queue.Queue, e: Queue.Event, c: Queue.Config): seq<Delivery> {
    if e.Enqueue? && e.call in q.calls && Queue.HasRoom(q, c) then [Frame(e.call.payload, e.call.id)] else []
  }

  lemma StepAccepts(q: Queue.Queue, e: Queue.Event, c: Queue.Config, fs: seq<Delivery>)
    requires q.accepted == Wires(fs)
    ensures Queue.Step(q, e, c).accepted == Wires(fs + AcceptedNow(q, e, c))
  {
    hide EncodeFrame, Wires, Queue.HasRoom;
    var now := AcceptedNow(q, e, c);
    if now == [] { assert fs + now == fs; } else { WiresSnoc(fs, now[0]); }
  }

  lemma {:induction false} AcceptedAreFrames(es: seq<Queue.Event>, c: Queue.Config)
    ensures Queue.Run(es, c).accepted == Wires(AcceptedFrames(es, c))
  {
    hide Queue.Step, AcceptedNow;
    if es != [] {
      AcceptedAreFrames(es[..|es| - 1], c);
      StepAccepts(Queue.Run(es[..|es| - 1], c), es[|es| - 1], c, AcceptedFrames(es[..|es| - 1], c));
    }
  }

  lemma {:induction false} EncodeFramesSnoc(fs: seq<Delivery>, f: Delivery)
    ensures EncodeFrames(fs + [f]) == EncodeFrames(fs) + Wire(f)
  {
    hide Wire;
    if fs == [] {
      assert [f][1..] == [] && Wire(f) + [] == Wire(f);
    } else {
      assert (fs + [f])[1..] == fs[1..] + [f];
      EncodeFramesSnoc(fs[1..], f);
      assert Wire(fs[0]) + (EncodeFrames(fs[1..]) + Wire(f)) == Wire(fs[0]) + EncodeFrames(fs[1..]) + Wire(f);
    }
  }

  lemma {:induction false} ConcatIsEncoding(fs: seq<Delivery>)
    ensures Concat(Wires(fs)) == EncodeFrames(fs)
  {
    if fs != [] {
      var n := |fs| - 1;
      ConcatIsEncoding(fs[..n]);
      assert Wires(fs)[..n] == Wires(fs[..n]) && fs == fs[..n] + [fs[n]];
      EncodeFramesSnoc(fs[..n], fs[n]);
    }
  }

  lemma {:induction false} AcceptedAreSendable(es: seq<Queue.Event>, c: Queue.Config)
    requires forall e :: e in es && e.Enqueue? ==> Sendable(Frame(e.call.payload, e.call.id))
    ensures forall d :: d in AcceptedFrames(es, c) ==> Sendable(d)
  {
    if es != [] {
      assert es[|es| - 1] in es;
      AcceptedAreSendable(es[..|es| - 1], c);
    }
  }

  /**
   Frames go through `transmit` on one end and the write tasks find the socket active; the socket's
   bytes are those tasks' writes. Then the other end delivers the accepted frames in the order they
   were accepted, and nothing else; and all of them once the queue is empty, the sender has
   disconnected without an error, everything has been read and the receiver's quota was not hit.
   */
  lemma AcceptedAreDelivered(es: seq<Queue.Event>, c: Queue.Config, writes: seq<Out.Event>, arrivals: seq<Event>, lim: Limits)
    requires forall e :: e in es ==> Queue.Reasonable(e)
    requires forall e :: e in es && e.Enqueue? ==> Sendable(Frame(e.call.payload, e.call.id))
    requires forall x :: x in Queue.Run(es, c).left ==> x.written
    requires Out.IsRun(Out.OPEN, writes)
    requires Out.Run(Out.OPEN, writes).accepted == Concat(Queue.Frames(Queue.Run(es, c).left))
    requires Stream(arrivals) <= Out.Run(Out.OPEN, writes).sent
    ensures var q, s, r := Queue.Run(es, c), Out.Run(Out.OPEN, writes), Run(arrivals, lim);
            && r.done.out <= AllSeen(AcceptedFrames(es, c))
            && (q.list == [] && s.state == Out.Unconnected && !s.cut && Stream(arrivals) == s.sent && !r.failed ==>
                  r.done.out == AllSeen(AcceptedFrames(es, c)))
  {
    Queue.QueueIsServed(es, c);
    AcceptedAreFrames(es, c);
    AcceptedAreSendable(es, c);
    var q, fs := Queue.Run(es, c), AcceptedFrames(es, c);
    hide Queue.Run, AcceptedFrames, Sendable, Out.IsRun, Out.Run, Run, Stream, EncodeFrames, Concat, Wire;
    LeftFrames(q.left, q.list, fs);
    var gone := fs[..|q.left|];
    hide Queue.Frames, Wires, AllSeen;
    ConcatIsEncoding(gone);
    DeliveriesFollowWrites(writes, gone, arrivals, lim);
  }

  /** The frames that have left the queue are the first of those accepted. */
  lemma LeftFrames(left: seq<Queue.Exit>, list: seq<Bytes>, fs: seq<Delivery>)
    requires Queue.Frames(left) + list == Wires(fs)
    ensures |left| <= |fs| && Queue.Frames(left) == Wires(fs[..|left|])
    ensures AllSeen(fs[..|left|]) <= AllSeen(fs) && (list == [] ==> fs[..|left|] == fs)
  {
    hide Wire, Seen;
    var n := |left|;
    assert |Wires(fs)| == n + |list|;
    assert Queue.Frames(left) == Wires(fs)[..n] == Wires(fs[..n]);
    assert AllSeen(fs[..n]) == AllSeen(fs)[..n];
  }

  /**
   The same with no proviso about the quota: when the receiver's limits cover what was accepted, every
   accepted frame arrives, whenever its consumer releases buffers.
   */
  lemma CoveredAreDelivered(es: seq<Queue.Event>, c: Queue.Config, writes: seq<Out.Event>, arrivals: seq<Event>, lim: Limits)
    requires forall e :: e in es ==> Queue.Reasonable(e)
    requires forall e :: e in es && e.Enqueue? ==> Sendable(Frame(e.call.payload, e.call.id))
    requires forall x :: x in Queue.Run(es, c).left ==> x.written
    requires Out.IsRun(Out.OPEN, writes)
    requires Out.Run(Out.OPEN, writes).accepted == Concat(Queue.Frames(Queue.Run(es, c).left))
    requires Queue.Run(es, c).list == []
    requires var s := Out.Run(Out.OPEN, writes); s.state == Out.Unconnected && !s.cut && Stream(arrivals) == s.sent
    requires PeerClosed !in arrivals
    requires var out := AllSeen(AcceptedFrames(es, c)); PayloadBytes(out) <= lim.bytes && Buffers(out) <= lim.buffers
    ensures Run(arrivals, lim).done == Progress(AllSeen(AcceptedFrames(es, c)), Idle, [])
  {
    Queue.QueueIsServed(es, c);
    AcceptedAreFrames(es, c);
    AcceptedAreSendable(es, c);
    Out.BytesAreConserved(writes);
    var q, fs := Queue.Run(es, c), AcceptedFrames(es, c);
    hide Queue.Run, AcceptedFrames, Sendable, Out.IsRun, Out.Run, Run, Stream, EncodeFrames, Concat, Wire, PayloadBytes, Buffers;
    LeftFrames(q.left, q.list, fs);
    ConcatIsEncoding(fs);
    AmpleQuotaDeliversAll(fs, arrivals, lim);
  }
}
