/**
 The receive quota from the other side: what it lets through. A read event is
 refused only by a frame that does not fit, told by the sizes of the buffers held
 when its header comes, and a receiver whose limits cover what is sent never
 refuses anything.
 */
module FrameQuota {
  import opened Wrappers
  import opened Codec
  import opened FrameParser

  /** The next eight bytes are the header of a frame that does not fit beside the buffers held. */
  predicate TooMuch(held: seq<nat>, header: Bytes, lim: Limits) {
    && |header| >= 8
    && var size, id := FromLittleEndian(header[..4]), FromLittleEndian(header[4..8]);
       && !(size == 0 && id == 0xffff_ffff)
       && (Sum(held) + size > lim.bytes || |held| + 1 > lim.buffers)
  }

  /** After n of the bytes the parser stands before a frame that does not fit beside what is then held. */
  ghost predicate RefusedAt(p: Parser, held: seq<nat>, b: Bytes, lim: Limits, n: nat)
    requires Live(p)
  {
    && n <= |b|
    && var f := Feed(p, held, b[..n], lim);
       !f.failed && f.done.p == Idle && f.done.rest == [] && TooMuch(f.held, b[n..], lim)
  }

  ghost predicate Refused(p: Parser, held: seq<nat>, b: Bytes, lim: Limits)
    requires Live(p)
  {
    exists n: nat :: RefusedAt(p, held, b, lim, n)
  }

  lemma TooMuchIff(held: seq<nat>, b: Bytes, lim: Limits)
    requires |b| >= 8
    ensures var size, id := FromLittleEndian(b[..4]), FromLittleEndian(b[4..8]);
            TooMuch(held, b, lim) <==> !(size == 0 && id == KEEP_ALIVE_ID) && !Admits(lim, held, size)
  {
    hide FromLittleEndian, Sum;
  }

  lemma FedNothing(held: seq<nat>, lim: Limits)
    ensures Feed(Idle, held, [], lim) == Fed(Progress([], Idle, []), held, false)
  {
  }

  lemma ResumeWhole(p: Parser, held: seq<nat>, b: Bytes, k: nat, n: nat, lim: Limits)
    requires Live(p) && k <= n <= |b|
    ensures var f := Feed(p, held, b[..k], lim);
            !f.failed && f.done.rest == [] ==>
              Feed(p, held, b[..n], lim) == Before(f.done.out, Feed(f.done.p, f.held, b[k..n], lim))
  {
    hide Feed;
    assert b[..k] + b[k..n] == b[..n] && [] + b[k..n] == b[k..n];
    FeedSplits(p, held, b[..k], b[k..n], lim);
  }

  /** A refusal further on, seen from the start of the bytes. */
  lemma RefusedLater(p: Parser, held: seq<nat>, b: Bytes, k: nat, lim: Limits)
    requires Live(p) && k <= |b|
    requires var f := Feed(p, held, b[..k], lim); !f.failed && f.done.rest == [] && Refused(f.done.p, f.held, b[k..], lim)
    ensures Refused(p, held, b, lim)
  {
    hide Feed, TooMuch;
    var f := Feed(p, held, b[..k], lim);
    var m: nat :| RefusedAt(f.done.p, f.held, b[k..], lim, m);
    ResumeWhole(p, held, b, k, k + m, lim);
    assert b[k..][m..] == b[k + m..] && b[k..][..m] == b[k..k + m];
    assert RefusedAt(p, held, b, lim, k + m);
  }

  /** The parser before a header that does not fit refuses it, whatever follows. */
  lemma RefusedFails(p: Parser, held: seq<nat>, b: Bytes, lim: Limits)
    requires Live(p) && Refused(p, held, b, lim)
    ensures Feed(p, held, b, lim).failed
  {
    var n: nat :| RefusedAt(p, held, b, lim, n);
    ResumeWhole(p, held, b, n, |b|, lim);
    assert b[..|b|] == b && b[n..|b|] == b[n..];
    var f := Feed(p, held, b[..n], lim);
    TooMuchIff(f.held, b[n..], lim);
    HeaderFails(f.held, b[n..], lim);
    hide Feed, TooMuch;
  }

  lemma HeaderFails(held: seq<nat>, b: Bytes, lim: Limits)
    requires TooMuch(held, b, lim)
    ensures Feed(Idle, held, b, lim).failed
  {
    TooMuchIff(held, b, lim);
    hide FromLittleEndian, Admits;
  }

  /** The parser after a header that is not refused. */
  lemma FedHeader(held: seq<nat>, b: Bytes, lim: Limits)
    requires |b| == 8 && !TooMuch(held, b, lim)
    ensures var f := Feed(Idle, held, b, lim); !f.failed && f.done.rest == []
  {
    TooMuchIff(held, b, lim);
    hide FromLittleEndian, Admits;
    FedNothing(held, lim);
    FedNothing(held + [0], lim);
    assert b[8..] == [];
  }

  lemma FedBody(p: Parser, held: seq<nat>, b: Bytes, lim: Limits)
    requires Live(p) && p.Body? && |b| == p.size - |p.got|
    ensures Feed(p, held, b, lim) == Fed(Progress([Frame(p.got + b, p.id)], Idle, []), held + [p.size], false)
  {
    FeedWhole(p.size, p.id, p.got, held, b, [], lim);
    FedNothing(held + [p.size], lim);
    assert b + [] == b;
  }

  lemma {:induction false} FailsAreRefused(p: Parser, held: seq<nat>, b: Bytes, lim: Limits)
    requires Live(p) && Feed(p, held, b, lim).failed
    ensures Refused(p, held, b, lim)
    decreases |b|
  {
    hide TooMuch;
    if p == Idle && |b| >= 8 && TooMuch(held, b, lim) {
      FedNothing(held, lim);
      assert b[..0] == [] && b[0..] == b;
      assert RefusedAt(p, held, b, lim, 0);
      return;
    }
    var k := if p == Idle then 8 else p.size - |p.got|;
    assert k <= |b|;
    if p == Idle {
      HeaderOf(held, b, lim);
      FedHeader(held, b[..8], lim);
    } else {
      FedBody(p, held, b[..k], lim);
    }
    hide Feed, Refused;
    var f := Feed(p, held, b[..k], lim);
    ResumeWhole(p, held, b, k, |b|, lim);
    assert b[..|b|] == b && b[k..|b|] == b[k..];
    FailsAreRefused(f.done.p, f.held, b[k..], lim);
    RefusedLater(p, held, b, k, lim);
  }

  lemma HeaderOf(held: seq<nat>, b: Bytes, lim: Limits)
    requires |b| >= 8
    ensures TooMuch(held, b[..8], lim) <==> TooMuch(held, b, lim)
  {
    assert b[..8][..4] == b[..4] && b[..8][4..8] == b[4..8];
    hide FromLittleEndian;
  }

  /** Bytes are refused exactly when the header of some frame in them finds too little room. */
  lemma RefusedIff(p: Parser, held: seq<nat>, b: Bytes, lim: Limits)
    requires Live(p)
    ensures Feed(p, held, b, lim).failed <==> Refused(p, held, b, lim)
  {
    hide Feed, Refused;
    if Feed(p, held, b, lim).failed { FailsAreRefused(p, held, b, lim); }
    if Refused(p, held, b, lim) { RefusedFails(p, held, b, lim); }
  }

  // ---- Over runs ----

  /** The i-th event closes the connection: the peer does, or it brings a frame that does not fit. */
  ghost predicate ClosesAt(es: seq<Event>, lim: Limits, i: nat)
    requires i < |es|
  {
    var r := Run(es[..i], lim);
    es[i] == PeerClosed || (es[i].Read? && Refused(r.done.p, r.held, r.done.rest + es[i].bytes, lim))
  }

  /** A connection is closed exactly by the first event of that kind, however the stream is cut and buffers are released. */
  lemma {:induction false} ClosedIff(es: seq<Event>, lim: Limits)
    ensures Run(es, lim).failed <==> exists i :: 0 <= i < |es| && ClosesAt(es, lim, i)
  {
    hide Refused;
    if es != [] {
      var n := |es| - 1;
      var prev, e := es[..n], es[n];
      ClosedIff(prev, lim);
      var r := Run(prev, lim);
      forall i | 0 <= i < n
        ensures ClosesAt(es, lim, i) <==> ClosesAt(prev, lim, i)
      {
        assert prev[..i] == es[..i];
      }
      if e.Read? { RefusedIff(r.done.p, r.held, r.done.rest + e.bytes, lim); }
      assert r.failed ==> exists i :: 0 <= i < |es| && ClosesAt(es, lim, i) by {
        if r.failed {
          var i :| 0 <= i < n && ClosesAt(prev, lim, i);
          assert ClosesAt(es, lim, i);
        }
      }
      StepFailsIff(r, e, lim);
      assert ClosesAt(es, lim, n) <==> e == PeerClosed || (e.Read? && Refused(r.done.p, r.held, r.done.rest + e.bytes, lim));
      hide Run, Step, ClosesAt;
    }
  }

  lemma StepFailsIff(r: Receiver, e: Event, lim: Limits)
    requires Live(r.done.p)
    ensures Step(r, e, lim).failed <==>
            r.failed || e == PeerClosed || (e.Read? && Feed(r.done.p, r.held, r.done.rest + e.bytes, lim).failed)
  {
  }

  /** When every frame that comes fits beside what is held then, nothing is refused and everything sent is delivered. */
  lemma FittingFramesAreDelivered(fs: seq<Delivery>, es: seq<Event>, lim: Limits)
    requires forall d :: d in fs ==> Sendable(d)
    requires Stream(es) == EncodeFrames(fs)
    requires forall i :: 0 <= i < |es| ==> !ClosesAt(es, lim, i)
    ensures var r := Run(es, lim); !r.failed && r.done == Progress(AllSeen(fs), Idle, [])
  {
    hide Run, Stream, EncodeFrames, Sendable, ClosesAt;
    ClosedIff(es, lim);
    DeliveriesArePrefix(fs, es, lim);
  }

  // ---- What is held was delivered ----

  /** The bytes and the number of the buffers handed over; keep-alives have none. */
  function PayloadBytes(out: seq<Delivery>): nat {
    if out == [] then 0 else PayloadBytes(out[..|out| - 1]) + if out[|out| - 1].Frame? then |out[|out| - 1].payload| else 0
  }

  function Buffers(out: seq<Delivery>): nat {
    if out == [] then 0 else Buffers(out[..|out| - 1]) + if out[|out| - 1].Frame? then 1 else 0
  }

  lemma {:induction false} LoadConcat(a: seq<Delivery>, b: seq<Delivery>)
    ensures PayloadBytes(a + b) == PayloadBytes(a) + PayloadBytes(b)
    ensures Buffers(a + b) == Buffers(a) + Buffers(b)
  {
    if b == [] {
      assert a + b == a;
    } else {
      var n := |b| - 1;
      LoadConcat(a, b[..n]);
      assert (a + b)[..|a| + n] == a + b[..n];
    }
  }

  lemma LoadOne(d: Delivery)
    ensures PayloadBytes([d]) == (if d.Frame? then |d.payload| else 0) && Buffers([d]) == if d.Frame? then 1 else 0
  {
    assert [d][..0] == [];
  }

  lemma HeldBefore(p: Delivery, size: nat, held: seq<nat>, f: Fed)
    requires p.Frame? && |p.payload| == size
    requires Sum(f.held) == Sum(held + [size]) + PayloadBytes(f.done.out) && |f.held| == |held| + 1 + Buffers(f.done.out)
    ensures Sum(f.held) == Sum(held) + PayloadBytes([p] + f.done.out) && |f.held| == |held| + Buffers([p] + f.done.out)
  {
    SumSnoc(held, size);
    LoadConcat([p], f.done.out);
    LoadOne(p);
  }

  /** Every buffer handed over in a read event is held, at its full size, and no other. */
  lemma {:induction false} DeliveredIsHeld(p: Parser, held: seq<nat>, b: Bytes, lim: Limits)
    requires Live(p)
    ensures var f := Feed(p, held, b, lim);
            Sum(f.held) == Sum(held) + PayloadBytes(f.done.out) && |f.held| == |held| + Buffers(f.done.out)
    decreases |b|
  {
    hide Sum, PayloadBytes, Buffers;
    LoadNothing();
    match p
    case Idle =>
      if |b| >= 8 {
        var size, id := FromLittleEndian(b[..4]), FromLittleEndian(b[4..8]);
        hide FromLittleEndian, Admits;
        if size == 0 && id == KEEP_ALIVE_ID {
          DeliveredIsHeld(Idle, held, b[8..], lim);
          LoadConcat([KeepAlive], Feed(Idle, held, b[8..], lim).done.out);
          LoadOne(KeepAlive);
        } else if Admits(lim, held, size) {
          if size == 0 {
            DeliveredIsHeld(Idle, held + [0], b[8..], lim);
            HeldBefore(Frame([], id), 0, held, Feed(Idle, held + [0], b[8..], lim));
          } else {
            DeliveredIsHeld(Body(size, id, []), held, b[8..], lim);
          }
        }
      }
    case Body(size, id, got) =>
      var n := size - |got|;
      if |b| >= n {
        DeliveredIsHeld(Idle, held + [size], b[n..], lim);
        HeldBefore(Frame(got + b[..n], id), size, held, Feed(Idle, held + [size], b[n..], lim));
      }
  }

  lemma LoadNothing()
    ensures PayloadBytes([]) == 0 && Buffers([]) == 0
  {
  }

  /** A released buffer makes room for its size, and nothing else changes. */
  lemma ReleaseMakesRoom(r: Receiver, i: nat, lim: Limits)
    requires Live(r.done.p) && !r.failed && i < |r.held|
    ensures var d := Step(r, Release(i), lim);
            && d.done == r.done && !d.failed
            && |d.held| == |r.held| - 1 && Sum(d.held) == Sum(r.held) - r.held[i]
            && d.held == r.held[..i] + r.held[i + 1..]
  {
    SumRemoved(r.held, i);
  }

  /** What is held is no more than what was delivered. */
  lemma {:induction false} HeldWasDelivered(es: seq<Event>, lim: Limits)
    ensures var r := Run(es, lim); Sum(r.held) <= PayloadBytes(r.done.out) && |r.held| <= Buffers(r.done.out)
  {
    if es != [] {
      var prev, e := es[..|es| - 1], es[|es| - 1];
      HeldWasDelivered(prev, lim);
      var r := Run(prev, lim);
      hide Sum, PayloadBytes, Buffers, Feed;
      match e
      case Read(b) =>
        DeliveredIsHeld(r.done.p, r.held, r.done.rest + b, lim);
        LoadConcat(r.done.out, Feed(r.done.p, r.held, r.done.rest + b, lim).done.out);
      case Release(i) => if i < |r.held| { SumRemoved(r.held, i); }
      case PeerClosed =>
    } else {
      LoadNothing();
    }
  }

  // ---- Limits that cover what is sent ----

  /** The frame whose header comes next, in bytes that end with a whole frame. */
  lemma NextFrame(b: Bytes)
    requires |b| >= 8 && Parse(Idle, b).p == Idle && Parse(Idle, b).rest == []
    requires !(FromLittleEndian(b[..4]) == 0 && FromLittleEndian(b[4..8]) == KEEP_ALIVE_ID)
    ensures var out := Parse(Idle, b).out;
            |out| > 0 && out[0].Frame? && |out[0].payload| == FromLittleEndian(b[..4])
  {
    hide FromLittleEndian;
  }

  lemma LoadFrom(a: seq<Delivery>, b: seq<Delivery>)
    requires |b| > 0 && b[0].Frame?
    ensures PayloadBytes(a) + |b[0].payload| <= PayloadBytes(a + b) && Buffers(a) + 1 <= Buffers(a + b)
  {
    LoadConcat(a, b);
    LoadConcat([b[0]], b[1..]);
    LoadOne(b[0]);
    assert [b[0]] + b[1..] == b;
  }

  lemma HeaderExtends(held: seq<nat>, a: Bytes, b: Bytes, lim: Limits)
    requires TooMuch(held, a, lim)
    ensures TooMuch(held, a + b, lim)
  {
    HeaderOf(held, a, lim);
    HeaderOf(held, a + b, lim);
    assert (a + b)[..8] == a[..8];
    hide TooMuch;
  }

  /** The whole parse, seen from the parser after the first n of the bytes. */
  lemma ParseOnward(p: Parser, out: seq<Delivery>, b: Bytes, more: Bytes, n: nat, mid: seq<Delivery>, all: seq<Delivery>)
    requires Live(p) && n <= |b| && Parse(p, b[..n]) == Progress(mid, Idle, [])
    requires After(out, Parse(p, b + more)) == Progress(all, Idle, [])
    ensures var q := Parse(Idle, b[n..] + more); q.p == Idle && q.rest == [] && all == out + (mid + q.out)
  {
    hide Parse;
    var tail := b[n..] + more;
    ParseSplits(p, b[..n], tail);
    assert b[..n] + tail == b + more && [] + tail == tail;
  }

  /** Bytes that continue a stream of frames which the limits cover are never refused. */
  lemma CoveredIsNotRefused(r: Receiver, b: Bytes, more: Bytes, all: seq<Delivery>, lim: Limits, n: nat)
    requires Live(r.done.p) && Sum(r.held) <= PayloadBytes(r.done.out) && |r.held| <= Buffers(r.done.out)
    requires After(r.done.out, Parse(r.done.p, b + more)) == Progress(all, Idle, [])
    requires PayloadBytes(all) <= lim.bytes && Buffers(all) <= lim.buffers
    ensures !RefusedAt(r.done.p, r.held, b, lim, n)
  {
    hide Feed, Parse, TooMuch, Sum, PayloadBytes, Buffers;
    if RefusedAt(r.done.p, r.held, b, lim, n) {
      var f := Feed(r.done.p, r.held, b[..n], lim);
      FeedIsParse(r.done.p, r.held, b[..n], lim);
      DeliveredIsHeld(r.done.p, r.held, b[..n], lim);
      ParseOnward(r.done.p, r.done.out, b, more, n, f.done.out, all);
      HeaderExtends(f.held, b[n..], more, lim);
      CoveredHasRoom(r, f, b[n..] + more, all, lim);
      assert false;
    }
  }

  lemma CoveredHasRoom(r: Receiver, f: Fed, tail: Bytes, all: seq<Delivery>, lim: Limits)
    requires Sum(r.held) <= PayloadBytes(r.done.out) && |r.held| <= Buffers(r.done.out)
    requires Sum(f.held) == Sum(r.held) + PayloadBytes(f.done.out) && |f.held| == |r.held| + Buffers(f.done.out)
    requires Parse(Idle, tail).p == Idle && Parse(Idle, tail).rest == []
    requires all == r.done.out + (f.done.out + Parse(Idle, tail).out)
    requires PayloadBytes(all) <= lim.bytes && Buffers(all) <= lim.buffers
    ensures !TooMuch(f.held, tail, lim)
  {
    hide *;
    if TooMuch(f.held, tail, lim) {
      var next := Parse(Idle, tail).out;
      TooMuchIsFrame(f.held, tail, lim);
      NextFrame(tail);
      LoadConcat(r.done.out, f.done.out);
      assert all == (r.done.out + f.done.out) + next;
      LoadFrom(r.done.out + f.done.out, next);
      RoomFor(f.held, tail, lim);
    }
  }

  lemma TooMuchIsFrame(held: seq<nat>, b: Bytes, lim: Limits)
    requires TooMuch(held, b, lim)
    ensures |b| >= 8 && !(FromLittleEndian(b[..4]) == 0 && FromLittleEndian(b[4..8]) == KEEP_ALIVE_ID)
  {
    hide FromLittleEndian, Sum;
  }

  lemma RoomFor(held: seq<nat>, b: Bytes, lim: Limits)
    requires |b| >= 8 && Sum(held) + FromLittleEndian(b[..4]) <= lim.bytes && |held| + 1 <= lim.buffers
    ensures !TooMuch(held, b, lim)
  {
    hide FromLittleEndian, Sum;
  }

  /**
   A receiver whose limits cover everything that is sent refuses nothing, whether buffers are released or
   not and however the stream is cut: unless the peer closes, all that was sent and read is delivered.
   */
  lemma {:induction false} AmpleQuotaNeverRefuses(fs: seq<Delivery>, es: seq<Event>, lim: Limits)
    requires forall d :: d in fs ==> Sendable(d)
    requires Stream(es) <= EncodeFrames(fs) && PeerClosed !in es
    requires PayloadBytes(AllSeen(fs)) <= lim.bytes && Buffers(AllSeen(fs)) <= lim.buffers
    ensures !Run(es, lim).failed
  {
    hide PayloadBytes, Buffers, Sendable, Parse, EncodeFrames;
    if es != [] {
      var n := |es| - 1;
      var prev, e := es[..n], es[n];
      assert Stream(prev) <= Stream(es) <= EncodeFrames(fs) && e in es;
      AmpleQuotaNeverRefuses(fs, prev, lim);
      var r := Run(prev, lim);
      StepFailsIff(r, e, lim);
      if e.Read? {
        var w := EncodeFrames(fs);
        var more := w[|Stream(es)|..];
        assert w == Stream(prev) + (e.bytes + more);
        FragmentationIsInvisible(prev, lim);
        FramesRoundTrip(fs);
        ParseSplits(Idle, Stream(prev), e.bytes + more);
        assert r.done.rest + (e.bytes + more) == (r.done.rest + e.bytes) + more;
        HeldWasDelivered(prev, lim);
        RefusedIff(r.done.p, r.held, r.done.rest + e.bytes, lim);
        forall k: nat
          ensures !RefusedAt(r.done.p, r.held, r.done.rest + e.bytes, lim, k)
        {
          CoveredIsNotRefused(r, r.done.rest + e.bytes, more, AllSeen(fs), lim, k);
        }
      }
    }
  }

  lemma AmpleQuotaDeliversAll(fs: seq<Delivery>, es: seq<Event>, lim: Limits)
    requires forall d :: d in fs ==> Sendable(d)
    requires Stream(es) == EncodeFrames(fs) && PeerClosed !in es
    requires PayloadBytes(AllSeen(fs)) <= lim.bytes && Buffers(AllSeen(fs)) <= lim.buffers
    ensures var r := Run(es, lim); !r.failed && r.done == Progress(AllSeen(fs), Idle, [])
  {
    AmpleQuotaNeverRefuses(fs, es, lim);
    DeliveriesArePrefix(fs, es, lim);
    hide *;
  }
}
