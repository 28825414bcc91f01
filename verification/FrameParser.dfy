/**
 The framed transport on top of the byte stream: a frame is a four-byte size, a
 four-byte id and the payload; a frame of size 0 with id 0xffffffff is a
 keep-alive. The parser keeps its place between read events, and every new
 frame is checked against the receive quota.
 */
module FrameParser {
  import opened Wrappers
  import opened Codec

  const KEEP_ALIVE_ID := 0xffff_ffff

  datatype Parser = Idle | Body(size: nat, id: nat, got: Bytes)
  datatype Delivery = Frame(payload: Bytes, id: nat) | KeepAlive

  predicate Live(p: Parser) { p.Body? ==> |p.got| < p.size }

  // ---- Parsing a stream, with no quota ----

  datatype Progress = Progress(out: seq<Delivery>, p: Parser, rest: Bytes)

  function After(out: seq<Delivery>, r: Progress): Progress { r.(out := out + r.out) }

  function Parse(p: Parser, b: Bytes): (r: Progress)
    requires Live(p)
    ensures Live(r.p)
    decreases |b|
  {
    match p
    case Idle =>
      if |b| < 8 then Progress([], Idle, b)
      else
        var size, id := FromLittleEndian(b[..4]), FromLittleEndian(b[4..8]);
        if size > 0 then Parse(Body(size, id, []), b[8..])
        else After([if id == KEEP_ALIVE_ID then KeepAlive else Frame([], id)], Parse(Idle, b[8..]))
    case Body(size, id, got) =>
      if |b| < size - |got| then Progress([], Body(size, id, got + b), [])
      else After([Frame(got + b[..size - |got|], id)], Parse(Idle, b[size - |got|..]))
  }

  lemma AfterAfter(a: seq<Delivery>, b: seq<Delivery>, r: Progress)
    ensures After(a, After(b, r)) == After(a + b, r) && After([], r) == r
  {
    assert a + (b + r.out) == a + b + r.out;
    assert [] + r.out == r.out;
  }

  /** Parsing a, and then b behind what a left over, is parsing a + b. */
  lemma {:induction false} ParseSplits(p: Parser, a: Bytes, b: Bytes)
    requires Live(p)
    ensures var r := Parse(p, a);
            Parse(p, a + b) == After(r.out, Parse(r.p, r.rest + b))
    decreases |a|
  {
    match p
    case Idle =>
      if |a| < 8 {
        AfterAfter([], [], Parse(Idle, a + b));
      } else {
        SliceExtends(a, b, 0, 4);
        SliceExtends(a, b, 4, 8);
        SliceExtends(a, b, 8, 8);
        var size, id := FromLittleEndian(a[..4]), FromLittleEndian(a[4..8]);
        var q := if size > 0 then Body(size, id, []) else Idle;
        ParseSplits(q, a[8..], b);
        var r := Parse(q, a[8..]);
        AfterAfter([if id == KEEP_ALIVE_ID then KeepAlive else Frame([], id)], r.out, Parse(r.p, r.rest + b));
      }
    case Body(size, id, got) =>
      var n := size - |got|;
      if |a| < n {
        BodySplits(p, a, b);
      } else {
        SliceExtends(a, b, 0, n);
        SliceExtends(a, b, n, n);
        ParseSplits(Idle, a[n..], b);
        var r := Parse(Idle, a[n..]);
        AfterAfter([Frame(got + a[..n], id)], r.out, Parse(r.p, r.rest + b));
      }
  }

  lemma ParsePart(size: nat, id: nat, got: Bytes, b: Bytes)
    requires |got| + |b| < size
    ensures Parse(Body(size, id, got), b) == Progress([], Body(size, id, got + b), [])
  {
  }

  lemma ParseRest(size: nat, id: nat, got: Bytes, a: Bytes, b: Bytes)
    requires |got| < size && |got| + |a| == size
    ensures Parse(Body(size, id, got), a + b) == After([Frame(got + a, id)], Parse(Idle, b))
  {
    assert (a + b)[..|a|] == a && (a + b)[|a|..] == b;
  }

  lemma CutAt(got: Bytes, a: Bytes, b: Bytes, n: nat)
    requires n <= |b|
    ensures b == b[..n] + b[n..] && a + b == (a + b[..n]) + b[n..]
    ensures got + (a + b[..n]) == (got + a) + b[..n]
  {
  }

  lemma BodyMeets(size: nat, id: nat, got: Bytes, a: Bytes, b: Bytes)
    requires |got| + |a| < size <= |got| + |a| + |b|
    ensures Parse(Body(size, id, got), a + b) == Parse(Body(size, id, got + a), b)
  {
    hide Parse;
    var n := size - |got + a|;
    CutAt(got, a, b, n);
    ParseRest(size, id, got, a + b[..n], b[n..]);
    ParseRest(size, id, got + a, b[..n], b[n..]);
  }

  lemma BodyStaysOpen(size: nat, id: nat, got: Bytes, a: Bytes, b: Bytes)
    requires |got| + |a| + |b| < size
    ensures Parse(Body(size, id, got), a + b) == Parse(Body(size, id, got + a), b)
  {
    hide Parse;
    ParsePart(size, id, got, a + b);
    ParsePart(size, id, got + a, b);
    assert got + (a + b) == (got + a) + b;
  }

  /** A payload that arrives in two pieces. */
  lemma BodySplits(p: Parser, a: Bytes, b: Bytes)
    requires p.Body? && |p.got| + |a| < p.size
    ensures Parse(p, a + b) == After([], Parse(Body(p.size, p.id, p.got + a), [] + b))
  {
    hide Parse, After;
    var q := Body(p.size, p.id, p.got + a);
    if |b| < p.size - |q.got| {
      BodyStaysOpen(p.size, p.id, p.got, a, b);
    } else {
      BodyMeets(p.size, p.id, p.got, a, b);
    }
    assert [] + b == b;
    AfterAfter([], [], Parse(q, b));
  }

  // ---- The receive quota ----

  /** maxReadBuffers and maxReadSize. */
  datatype Limits = Limits(buffers: nat, bytes: nat)

  /** What a read event leaves; `held` are the sizes of the completed buffers not yet released. */
  datatype Fed = Fed(done: Progress, held: seq<nat>, failed: bool)

  function Sum(held: seq<nat>): nat {
    if held == [] then 0 else Sum(held[..|held| - 1]) + held[|held| - 1]
  }

  predicate Admits(lim: Limits, held: seq<nat>, size: nat) {
    size <= lim.bytes && |held| < lim.buffers && size + Sum(held) <= lim.bytes
  }

  function Before(out: seq<Delivery>, f: Fed): Fed { f.(done := After(out, f.done)) }

  /** The parse, stopping at the first frame the quota refuses. */
  function Feed(p: Parser, held: seq<nat>, b: Bytes, lim: Limits): (f: Fed)
    requires Live(p)
    ensures Live(f.done.p)
    decreases |b|
  {
    match p
    case Idle =>
      if |b| < 8 then Fed(Progress([], Idle, b), held, false)
      else
        var size, id := FromLittleEndian(b[..4]), FromLittleEndian(b[4..8]);
        if size == 0 && id == KEEP_ALIVE_ID then Before([KeepAlive], Feed(Idle, held, b[8..], lim))
        else if !Admits(lim, held, size) then Fed(Progress([], Idle, b[8..]), held, true)
        else if size == 0 then Before([Frame([], id)], Feed(Idle, held + [0], b[8..], lim))
        else Feed(Body(size, id, []), held, b[8..], lim)
    case Body(size, id, got) =>
      if |b| < size - |got| then Fed(Progress([], Body(size, id, got + b), []), held, false)
      else
        Before([Frame(got + b[..size - |got|], id)], Feed(Idle, held + [size], b[size - |got|..], lim))
  }

  lemma {:induction false} FeedIsParse(p: Parser, held: seq<nat>, b: Bytes, lim: Limits)
    requires Live(p)
    ensures !Feed(p, held, b, lim).failed ==> Feed(p, held, b, lim).done == Parse(p, b)
    decreases |b|
  {
    match p
    case Idle =>
      if |b| >= 8 {
        var size, id := FromLittleEndian(b[..4]), FromLittleEndian(b[4..8]);
        hide FromLittleEndian, Admits;
        if size == 0 && id == KEEP_ALIVE_ID {
          FeedIsParse(Idle, held, b[8..], lim);
        } else if size == 0 {
          FeedIsParse(Idle, held + [0], b[8..], lim);
        } else {
          FeedIsParse(Body(size, id, []), held, b[8..], lim);
        }
      }
    case Body(size, id, got) =>
      if |b| >= size - |got| { FeedIsParse(Idle, held + [size], b[size - |got|..], lim); }
  }

  /** Unreleased bytes plus the declared size of the frame being received, and the buffers, stay within the limits. */
  ghost predicate WithinQuota(p: Parser, held: seq<nat>, lim: Limits) {
    && Sum(held) + (if p.Body? then p.size else 0) <= lim.bytes
    && |held| + (if p.Body? then 1 else 0) <= lim.buffers
  }

  lemma {:induction false} FeedKeepsQuota(p: Parser, held: seq<nat>, b: Bytes, lim: Limits)
    requires Live(p) && WithinQuota(p, held, lim)
    ensures var f := Feed(p, held, b, lim); WithinQuota(f.done.p, f.held, lim)
    decreases |b|
  {
    match p
    case Idle =>
      if |b| >= 8 {
        var size, id := FromLittleEndian(b[..4]), FromLittleEndian(b[4..8]);
        hide FromLittleEndian;
        if size == 0 && id == KEEP_ALIVE_ID {
          hide Sum;
          FeedKeepsQuota(Idle, held, b[8..], lim);
        } else if Admits(lim, held, size) {
          SumSnoc(held, 0);
          hide Sum;
          if size == 0 {
            FeedKeepsQuota(Idle, held + [0], b[8..], lim);
          } else {
            FeedKeepsQuota(Body(size, id, []), held, b[8..], lim);
          }
        }
      }
    case Body(size, id, got) =>
      if |b| >= size - |got| {
        SumSnoc(held, size);
        hide Sum;
        FeedKeepsQuota(Idle, held + [size], b[size - |got|..], lim);
      }
  }

  lemma SumSnoc(held: seq<nat>, x: nat)
    ensures Sum(held + [x]) == Sum(held) + x
  {
    assert (held + [x])[..|held|] == held;
  }

  lemma {:induction false} SumRemoved(held: seq<nat>, i: nat)
    requires i < |held|
    ensures Sum(held[..i] + held[i + 1..]) == Sum(held) - held[i]
  {
    var n := |held| - 1;
    if i == n {
      assert held[..i] + held[i + 1..] == held[..n];
    } else {
      SumRemoved(held[..n], i);
      assert held[..i] + held[i + 1..] == (held[..n][..i] + held[..n][i + 1..]) + [held[n]];
      SumSnoc(held[..n][..i] + held[..n][i + 1..], held[n]);
    }
  }

  // ---- The parse with a quota, continued ----

  lemma BeforeNothing(f: Fed)
    ensures Before([], f) == f
  {
    assert [] + f.done.out == f.done.out;
  }

  lemma BeforeBefore(a: seq<Delivery>, b: seq<Delivery>, f: Fed)
    ensures Before(a, Before(b, f)) == Before(a + b, f)
  {
    assert a + (b + f.done.out) == a + b + f.done.out;
  }

  lemma FeedShort(size: nat, id: nat, got: Bytes, held: seq<nat>, b: Bytes, lim: Limits)
    requires |got| + |b| < size
    ensures Feed(Body(size, id, got), held, b, lim) == Fed(Progress([], Body(size, id, got + b), []), held, false)
  {
  }

  lemma FeedWhole(size: nat, id: nat, got: Bytes, held: seq<nat>, a: Bytes, b: Bytes, lim: Limits)
    requires |got| < size && |got| + |a| == size
    ensures Feed(Body(size, id, got), held, a + b, lim) == Before([Frame(got + a, id)], Feed(Idle, held + [size], b, lim))
  {
    assert (a + b)[..|a|] == a && (a + b)[|a|..] == b;
  }

  /** Taking the next piece a of a frame's payload: it completes the frame, or the rest is still to come. */
  lemma FeedPart(size: nat, id: nat, got: Bytes, held: seq<nat>, a: Bytes, b: Bytes, lim: Limits)
    requires |got| < size && |got| + |a| <= size
    ensures Feed(Body(size, id, got), held, a + b, lim) ==
            if |got| + |a| == size then Before([Frame(got + a, id)], Feed(Idle, held + [size], b, lim))
            else Before([], Feed(Body(size, id, got + a), held, b, lim))
  {
    hide Feed;
    if |got| + |a| == size {
      FeedWhole(size, id, got, held, a, b, lim);
    } else {
      BeforeNothing(Feed(Body(size, id, got + a), held, b, lim));
      var n := size - |got + a|;
      if |b| < n {
        FeedShort(size, id, got, held, a + b, lim);
        FeedShort(size, id, got + a, held, b, lim);
        assert got + (a + b) == (got + a) + b;
      } else {
        CutAt(got, a, b, n);
        FeedWhole(size, id, got, held, a + b[..n], b[n..], lim);
        FeedWhole(size, id, got + a, held, b[..n], b[n..], lim);
      }
    }
  }

  /** What a read event has left, when b comes behind it. */
  function Resume(f: Fed, b: Bytes, lim: Limits): Fed
    requires Live(f.done.p)
  {
    if f.failed then f.(done := f.done.(rest := f.done.rest + b))
    else Before(f.done.out, Feed(f.done.p, f.held, f.done.rest + b, lim))
  }

  lemma ResumeBefore(out: seq<Delivery>, f: Fed, b: Bytes, lim: Limits)
    requires Live(f.done.p)
    ensures Resume(Before(out, f), b, lim) == Before(out, Resume(f, b, lim))
  {
    if !f.failed { BeforeBefore(out, f.done.out, Feed(f.done.p, f.held, f.done.rest + b, lim)); }
  }

  lemma {:induction false} FeedSplits(p: Parser, held: seq<nat>, a: Bytes, b: Bytes, lim: Limits)
    requires Live(p)
    ensures Feed(p, held, a + b, lim) == Resume(Feed(p, held, a, lim), b, lim)
    decreases |a|
  {
    match p
    case Idle =>
      if |a| < 8 {
        BeforeNothing(Feed(Idle, held, a + b, lim));
      } else {
        SliceExtends(a, b, 0, 4);
        SliceExtends(a, b, 4, 8);
        SliceExtends(a, b, 8, 8);
        var size, id := FromLittleEndian(a[..4]), FromLittleEndian(a[4..8]);
        hide FromLittleEndian, Admits, Resume;
        if size == 0 && id == KEEP_ALIVE_ID {
          FeedSplits(Idle, held, a[8..], b, lim);
          ResumeBefore([KeepAlive], Feed(Idle, held, a[8..], lim), b, lim);
        } else if !Admits(lim, held, size) {
          ResumeFailed(a[8..], held, b, lim);
        } else if size == 0 {
          FeedSplits(Idle, held + [0], a[8..], b, lim);
          ResumeBefore([Frame([], id)], Feed(Idle, held + [0], a[8..], lim), b, lim);
        } else {
          FeedSplits(Body(size, id, []), held, a[8..], b, lim);
        }
      }
    case Body(size, id, got) =>
      var n := size - |got|;
      if |a| < n {
        FeedPart(size, id, got, held, a, b, lim);
        assert [] + b == b;
      } else {
        SliceExtends(a, b, 0, n);
        SliceExtends(a, b, n, n);
        FeedSplits(Idle, held + [size], a[n..], b, lim);
        ResumeBefore([Frame(got + a[..n], id)], Feed(Idle, held + [size], a[n..], lim), b, lim);
      }
  }

  lemma ResumeFailed(rest: Bytes, held: seq<nat>, b: Bytes, lim: Limits)
    ensures Resume(Fed(Progress([], Idle, rest), held, true), b, lim) == Fed(Progress([], Idle, rest + b), held, true)
  {
  }

  /** A refusal only cuts the deliveries short. */
  lemma {:induction false} FeedIsPrefix(p: Parser, held: seq<nat>, b: Bytes, lim: Limits)
    requires Live(p)
    ensures Feed(p, held, b, lim).done.out <= Parse(p, b).out
    decreases |b|
  {
    match p
    case Idle =>
      if |b| >= 8 {
        var size, id := FromLittleEndian(b[..4]), FromLittleEndian(b[4..8]);
        hide FromLittleEndian, Admits;
        if size == 0 && id == KEEP_ALIVE_ID {
          FeedIsPrefix(Idle, held, b[8..], lim);
        } else if size == 0 {
          FeedIsPrefix(Idle, held + [0], b[8..], lim);
        } else {
          FeedIsPrefix(Body(size, id, []), held, b[8..], lim);
        }
      }
    case Body(size, id, got) =>
      if |b| >= size - |got| { FeedIsPrefix(Idle, held + [size], b[size - |got|..], lim); }
  }

  // ---- Streams cut into read events ----

  /** A read event brings some bytes; between events any held buffer may be released, and the peer may close. */
  datatype Event = Read(bytes: Bytes) | Release(i: nat) | PeerClosed

  /** Deliveries so far, parser place and unread bytes; held buffers; whether the quota or the peer has closed the connection. */
  datatype Receiver = Receiver(done: Progress, held: seq<nat>, failed: bool)

  const FRESH := Receiver(Progress([], Idle, []), [], false)

  function Step(r: Receiver, e: Event, lim: Limits): Receiver
    requires Live(r.done.p)
  {
    if r.failed then r
    else match e
      case Read(b) =>
        var f := Feed(r.done.p, r.held, r.done.rest + b, lim);
        var done := After(r.done.out, f.done);
        Receiver(if f.failed then done.(rest := []) else done, f.held, f.failed)
      case Release(i) =>
        if i < |r.held| then r.(held := r.held[..i] + r.held[i + 1..]) else r
      case PeerClosed => r.(done := Progress(r.done.out, Idle, []), failed := true)
  }

  function Run(es: seq<Event>, lim: Limits): (r: Receiver)
    ensures Live(r.done.p)
  {
    if es == [] then FRESH else Step(Run(es[..|es| - 1], lim), es[|es| - 1], lim)
  }

  function Stream(es: seq<Event>): Bytes {
    if es == [] then []
    else Stream(es[..|es| - 1]) + (if es[|es| - 1].Read? then es[|es| - 1].bytes else [])
  }

  /**
   Deliveries, parser place and unread bytes depend only on the bytes, not on how the stream was cut
   into read events nor on when buffers were released: as long as the connection was not closed they are
   those of the parse of the whole stream.
   */
  lemma {:induction false} FragmentationIsInvisible(es: seq<Event>, lim: Limits)
    ensures var r := Run(es, lim); !r.failed ==> r.done == Parse(Idle, Stream(es))
  {
    if es != [] {
      var prev, e := es[..|es| - 1], es[|es| - 1];
      FragmentationIsInvisible(prev, lim);
      var r := Run(prev, lim);
      if e.Read? && !r.failed {
        FeedIsParse(r.done.p, r.held, r.done.rest + e.bytes, lim);
        ParseSplits(Idle, Stream(prev), e.bytes);
      } else {
        assert Stream(prev) + [] == Stream(prev);
      }
    }
  }

  /** Also when it is closed nothing is delivered that the stream does not hold, and nothing out of order. */
  lemma {:induction false} DeliveriesFollowStream(es: seq<Event>, lim: Limits)
    ensures Run(es, lim).done.out <= Parse(Idle, Stream(es)).out
  {
    if es != [] {
      var prev, e := es[..|es| - 1], es[|es| - 1];
      DeliveriesFollowStream(prev, lim);
      var r, here := Run(prev, lim), Parse(Idle, Stream(prev));
      if e.Read? {
        ParseSplits(Idle, Stream(prev), e.bytes);
        if !r.failed {
          FragmentationIsInvisible(prev, lim);
          FeedIsPrefix(r.done.p, r.held, r.done.rest + e.bytes, lim);
        }
      } else {
        assert Stream(prev) + [] == Stream(prev);
      }
    }
  }

  /** In every reachable state the receive quota is respected, whatever is sent and released. */
  lemma {:induction false} QuotaIsKept(es: seq<Event>, lim: Limits)
    ensures var r := Run(es, lim); WithinQuota(r.done.p, r.held, lim)
  {
    if es != [] {
      var prev, e := es[..|es| - 1], es[|es| - 1];
      QuotaIsKept(prev, lim);
      var r := Run(prev, lim);
      match e
      case Read(b) => FeedKeepsQuota(r.done.p, r.held, r.done.rest + b, lim);
      case Release(i) => if i < |r.held| { SumRemoved(r.held, i); }
      case PeerClosed =>
    }
  }

  // ---- What transmit puts on the wire ----

  /** The header is one 64-bit word: the id above the size. */
  function EncodeFrame(payload: Bytes, id: nat): Bytes {
    LittleEndian(8, id * 0x1_0000_0000 + |payload|) + payload
  }

  function EncodeFrames(fs: seq<Delivery>): Bytes {
    if fs == [] then [] else Wire(fs[0]) + EncodeFrames(fs[1..])
  }

  /** A keep-alive is the word 0xffffffff00000000. */
  function Wire(d: Delivery): Bytes {
    match d
    case Frame(payload, id) => EncodeFrame(payload, id)
    case KeepAlive => LittleEndian(8, 0xffff_ffff_0000_0000)
  }

  ghost predicate Sendable(d: Delivery) {
    d.Frame? ==> |d.payload| < 0x1_0000_0000 && d.id < 0x1_0000_0000
  }

  /** An empty frame with the keep-alive's id cannot be told from a keep-alive. */
  function Seen(d: Delivery): Delivery {
    if d == Frame([], KEEP_ALIVE_ID) then KeepAlive else d
  }

  lemma {:induction false} LittleEndianSplit(a: nat, b: nat, low: nat, high: nat)
    requires low < Pow256(a)
    ensures LittleEndian(a + b, high * Pow256(a) + low) == LittleEndian(a, low) + LittleEndian(b, high)
  {
    if a == 0 {
      assert LittleEndian(0, low) + LittleEndian(b, high) == LittleEndian(b, high);
    } else {
      var v := high * Pow256(a) + low;
      assert v == 256 * (high * Pow256(a - 1)) + low;
      DivMod256(high * Pow256(a - 1), low);
      LittleEndianSplit(a - 1, b, low / 256, high);
    }
  }

  lemma DivMod256(q: nat, r: nat)
    ensures (256 * q + r) % 256 == r % 256 && (256 * q + r) / 256 == q + r / 256
  {
  }

  lemma HeaderParts(size: nat, id: nat, rest: Bytes)
    requires size < 0x1_0000_0000 && id < 0x1_0000_0000
    ensures var w := LittleEndian(8, id * 0x1_0000_0000 + size) + rest;
            |w| >= 8 && FromLittleEndian(w[..4]) == size && FromLittleEndian(w[4..8]) == id && w[8..] == rest
  {
    PowersOf256();
    LittleEndianSplit(4, 4, size, id);
    LittleEndianRoundTrip(4, size);
    LittleEndianRoundTrip(4, id);
    var w := LittleEndian(8, id * 0x1_0000_0000 + size) + rest;
    assert w[..4] == LittleEndian(4, size) && w[4..8] == LittleEndian(4, id);
  }

  lemma ParseWire(d: Delivery, rest: Bytes)
    requires Sendable(d)
    ensures Parse(Idle, Wire(d) + rest) == After([Seen(d)], Parse(Idle, rest))
  {
    match d
    case KeepAlive =>
      HeaderParts(0, KEEP_ALIVE_ID, rest);
    case Frame(payload, id) =>
      var head := LittleEndian(8, id * 0x1_0000_0000 + |payload|);
      assert (head + payload) + rest == head + (payload + rest);
      HeaderParts(|payload|, id, payload + rest);
      hide LittleEndian, FromLittleEndian;
      if |payload| > 0 {
        assert (payload + rest)[..|payload|] == payload && (payload + rest)[|payload|..] == rest;
        assert [] + payload == payload;
      } else {
        assert payload + rest == rest;
      }
  }

  /** What the receiver of frames `fs` should deliver. */
  function AllSeen(fs: seq<Delivery>): seq<Delivery> {
    seq(|fs|, i requires 0 <= i < |fs| => Seen(fs[i]))
  }

  /** The receiver gets back the very frames that were transmitted, and nothing is left over. */
  lemma {:induction false} FramesRoundTrip(fs: seq<Delivery>)
    requires forall d :: d in fs ==> Sendable(d)
    ensures Parse(Idle, EncodeFrames(fs)) == Progress(AllSeen(fs), Idle, [])
  {
    hide Wire, Sendable;
    if fs != [] {
      ParseWire(fs[0], EncodeFrames(fs[1..]));
      FramesRoundTrip(fs[1..]);
    }
  }

  /**
   Any part of the wire's bytes, however cut, delivers a prefix of the transmitted frames; all of them,
   read before the connection is closed, deliver them all and leave nothing over.
   */
  lemma DeliveriesArePrefix(fs: seq<Delivery>, es: seq<Event>, lim: Limits)
    requires forall d :: d in fs ==> Sendable(d)
    requires Stream(es) <= EncodeFrames(fs)
    ensures var r := Run(es, lim);
            && r.done.out <= AllSeen(fs)
            && (!r.failed && Stream(es) == EncodeFrames(fs) ==> r.done == Progress(AllSeen(fs), Idle, []))
  {
    hide Parse, Sendable, EncodeFrames, Stream, Run;
    var part, whole := Stream(es), EncodeFrames(fs);
    DeliveriesFollowStream(es, lim);
    FragmentationIsInvisible(es, lim);
    FramesRoundTrip(fs);
    assert whole == part + whole[|part|..];
    ParseSplits(Idle, part, whole[|part|..]);
  }
}
