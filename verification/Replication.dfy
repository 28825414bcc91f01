/**
 Pull replication of a round-robin database: the client asks for the items
 after its last index, the server answers with a chunk of at most 100, and the
 client either appends the chunk or clears its ring and starts over near the
 server's newest index.
 */
module Replication {
  import opened Wrappers
  import opened RrdSpec

  const TRANSMIT_COUNT := 100

  datatype Reply = Reply(val: nat, list: seq<Item>, last: nat)

  function ServerReply(h: History, dbSize: nat, index: nat): Reply
    requires dbSize > 0
  {
    var r := ReadSpec(h, dbSize, index, TRANSMIT_COUNT);
    Reply(r.ret, r.list, r.last)
  }

  datatype Client = Client(h: History, dbSize: nat, interval: nat, fill: nat, lastTime: nat)
  datatype Action = Request | Resync | Idle

  /** The index of item i of a chunk of n items ending at `val`, in unsigned 64-bit arithmetic. */
  function ItemIndex(val: nat, n: nat, i: nat): (index: nat)
    ensures index < U64
  {
    (val - n + i + 1) % U64
  }

  /** Appends the first k items of a chunk. */
  function AppendChunk(c: Client, val: nat, list: seq<Item>, k: nat, now: nat): History
    requires k <= |list| && now < U64
  {
    if k == 0 then c.h
    else
      var h := AppendChunk(c, val, list, k - 1, now);
      var pos := Position(ItemIndex(val, |list|, k - 1), now, c.interval, Last(h));
      Appended(h, list[k - 1], pos, c.dbSize, c.fill)
  }

  function OutOfStep(c: Client, r: Reply): bool {
    r.val < c.lastTime || r.val - c.lastTime > c.dbSize
  }

  function ClientStep(c: Client, r: Reply, now: nat): (Client, Action)
    requires now < U64
  {
    if OutOfStep(c, r) then
      (c.(h := EMPTY, lastTime := if r.last > c.dbSize then r.last - c.dbSize else 0), Resync)
    else if |r.list| > 0 then
      (c.(h := AppendChunk(c, r.val, r.list, |r.list|, now), lastTime := r.val),
       if r.val != r.last then Request else Idle)
    else (c, Idle)
  }

  // ---- One round ----

  ghost predicate Sane(c: Client, h: History, dbSize: nat) {
    0 < c.dbSize <= dbSize && Last(h) + 1 < U64 && c.lastTime + 1 < U64
  }

  /** Close enough to the server's last index for no reply to look out of step. */
  predicate Settled(c: Client, last: nat) {
    c.lastTime <= last <= c.lastTime + c.dbSize
  }

  function Round(c: Client, h: History, dbSize: nat, now: nat): (Client, Action)
    requires Sane(c, h, dbSize) && now < U64
  {
    ClientStep(c, ServerReply(h, dbSize, c.lastTime + 1), now)
  }

  lemma ChunkIndex(val: nat, n: nat, i: nat)
    requires i < n <= val < U64
    ensures ItemIndex(val, n, i) == val - n + i + 1
  {
  }

  lemma AppendedShows(h: History, data: Item, pos: nat, dbSize: nat, fill: nat)
    requires pos > Last(h)
    ensures var g := Appended(h, data, pos, dbSize, fill);
            Last(g) == pos && g[pos] == data && g[..|h|] == h && forall k :: 0 <= k < |h| ==> g[k] == h[k]
  {
    hide GapItem;
  }

  lemma PrefixOfPrefix<T>(a: seq<T>, b: seq<T>, c: seq<T>)
    requires |a| <= |b| <= |c| && b[..|a|] == a && c[..|b|] == b
    ensures c[..|a|] == a
  {
    assert c[..|a|] == c[..|b|][..|a|];
  }

  lemma ChunkSucc(c: Client, val: nat, list: seq<Item>, k: nat, now: nat)
    requires 0 < k <= |list| && now < U64 && |list| <= val < U64
    ensures AppendChunk(c, val, list, k, now) ==
            Appended(AppendChunk(c, val, list, k - 1, now), list[k - 1], val - |list| + k, c.dbSize, c.fill)
  {
    hide ItemIndex, Appended;
    ChunkIndex(val, |list|, k - 1);
  }

  /** Above what was there before (`from`), h holds the first k items of a chunk whose first index is `low`. */
  ghost predicate HoldsChunk(h: History, list: seq<Item>, k: nat, low: nat, from: nat) {
    k <= |list| && forall j: nat :: low <= j < low + k && from <= j < |h| ==> h[j] == list[j - low]
  }

  lemma HoldsOneMore(h: History, g: History, list: seq<Item>, k: nat, low: nat, from: nat)
    requires 0 < k <= |list| && HoldsChunk(h, list, k - 1, low, from) && (k == 1 || |h| == low + k - 1)
    requires |g| == low + k && g[low + k - 1] == list[k - 1] && forall j :: 0 <= j < |h| <= low + k - 1 ==> g[j] == h[j]
    ensures HoldsChunk(g, list, k, low, from)
  {
  }

  lemma HoldsNothingNew(h: History, list: seq<Item>, k: nat, low: nat, from: nat)
    requires k <= |list| && |h| <= from
    ensures HoldsChunk(h, list, k, low, from)
  {
  }

  /** History h is `from`, continued by the first k items of a chunk as far as they lie above it. */
  ghost predicate Continued(from: History, h: History, list: seq<Item>, k: nat, low: nat) {
    && |h| == (if k == 0 || low + k - 1 < |from| then |from| else low + k)
    && h[..|from|] == from && HoldsChunk(h, list, k, low, |from|)
  }

  lemma ContinuedByOne(from: History, h: History, list: seq<Item>, k: nat, low: nat, dbSize: nat, fill: nat)
    requires 0 < k <= |list| && Continued(from, h, list, k - 1, low)
    ensures Continued(from, Appended(h, list[k - 1], low + k - 1, dbSize, fill), list, k, low)
  {
    var pos, g := low + k - 1, Appended(h, list[k - 1], low + k - 1, dbSize, fill);
    hide HoldsChunk, Appended;
    if pos < |h| {
      AppendedBelow(h, list[k - 1], pos, dbSize, fill);
      HoldsNothingNew(h, list, k, low, |from|);
    } else {
      AppendedShows(h, list[k - 1], pos, dbSize, fill);
      PrefixOfPrefix(from, h, g);
      HoldsOneMore(h, g, list, k, low, |from|);
    }
  }

  lemma ContinuedByNothing(from: History, list: seq<Item>, low: nat)
    ensures Continued(from, from, list, 0, low)
  {
    HoldsNothingNew(from, list, 0, low, |from|);
  }

  lemma {:induction false} ChunkIsHeld(c: Client, val: nat, list: seq<Item>, k: nat, now: nat)
    requires k <= |list| && now < U64 && |list| <= val < U64
    ensures Continued(c.h, AppendChunk(c, val, list, k, now), list, k, val - |list| + 1)
  {
    hide Continued, Appended;
    if k == 0 {
      ContinuedByNothing(c.h, list, val - |list| + 1);
    } else {
      ChunkSucc(c, val, list, k, now);
      ChunkIsHeld(c, val, list, k - 1, now);
      ContinuedByOne(c.h, AppendChunk(c, val, list, k - 1, now), list, k, val - |list| + 1, c.dbSize, c.fill);
    }
  }

  /**
   Appending a chunk adds exactly those of its items that lie above what the ring already holds, which
   stays as it was.
   */
  lemma ChunkIsAppended(c: Client, val: nat, list: seq<Item>, k: nat, now: nat)
    requires k <= |list| && now < U64 && |list| <= val < U64
    ensures var h, end := AppendChunk(c, val, list, k, now), val - |list| + k;
            && Last(h) == (if k == 0 || end <= Last(c.h) then Last(c.h) else end)
            && h[..|c.h|] == c.h
            && forall i :: 0 <= i < k && Last(c.h) < val - |list| + 1 + i ==> h[val - |list| + 1 + i] == list[i]
  {
    hide AppendChunk;
    ChunkIsHeld(c, val, list, k, now);
  }

  lemma AppendedBelow(h: History, data: Item, pos: nat, dbSize: nat, fill: nat)
    requires pos <= Last(h)
    ensures Appended(h, data, pos, dbSize, fill) == h
  {
  }

  ghost predicate SameAt(a: History, b: History, k: nat) {
    k < |a| && k < |b| && a[k] == b[k]
  }

  /** The client agrees with the server on the indices in (low, up] that lie in its final window. */
  ghost predicate Agrees(c: Client, h: History, low: int, up: nat) {
    forall k: nat :: low < k <= up && k < |h| && Last(h) - c.dbSize < k ==> SameAt(c.h, h, k)
  }

  lemma ReplyShape(c: Client, h: History, dbSize: nat)
    requires Sane(c, h, dbSize) && c.lastTime < Last(h)
    ensures var r, t := ServerReply(h, dbSize, c.lastTime + 1), c.lastTime;
            && r.last == Last(h) && t < r.val <= Last(h) && 0 < |r.list| <= 100 && |r.list| <= r.val
            && t <= r.val - |r.list|
            && (r.val == Last(h) || |r.list| == 100 || |r.list| == dbSize)
            && (t + 1 + dbSize >= Last(h) ==> r.val - |r.list| == t)
            && (t < r.val - |r.list| ==> r.val - |r.list| + dbSize <= Last(h))
            && forall k: nat :: r.val - |r.list| < k <= r.val && Last(h) - dbSize < k ==> r.list[k - 1 - (r.val - |r.list|)] == h[k]
  {
    var r := ServerReply(h, dbSize, c.lastTime + 1);
    var start := ReadStart(h, dbSize, c.lastTime + 1);
    assert r.val - |r.list| + 1 == start;
    forall k: nat | start <= k <= r.val && Last(h) - dbSize < k
      ensures r.list[k - start] == h[k]
    {
      assert r.list[k - start] == WindowItem(h, dbSize, start + (k - start));
    }
  }

  function Max(a: nat, b: nat): nat { if a < b then b else a }

  /** An accepted chunk: the client's last index becomes the reply's, and its ring gains what it lacked. */
  lemma ChunkAccepted(c: Client, r: Reply, now: nat)
    requires now < U64 && 0 < |r.list| <= r.val < U64
    requires ClientStep(c, r, now).1 != Resync
    ensures var (d, a) := ClientStep(c, r, now);
            && d.lastTime == r.val && Last(d.h) == Max(Last(c.h), r.val) && d.h[..|c.h|] == c.h
            && (a == Idle <==> r.val == r.last)
            && forall i :: 0 <= i < |r.list| && Last(c.h) < r.val - |r.list| + 1 + i ==>
                 d.h[r.val - |r.list| + 1 + i] == r.list[i]
  {
    hide AppendChunk;
    ChunkIsAppended(c, r.val, r.list, |r.list|, now);
  }

  /** A reply to a client that is behind: it is accepted and moves the client up, or it forces a resync. */
  lemma RoundWhenBehind(c: Client, h: History, dbSize: nat, now: nat)
    requires Sane(c, h, dbSize) && now < U64 && c.lastTime < Last(h)
    ensures var (d, a) := Round(c, h, dbSize, now);
            && (a == Resync ==> !Settled(c, Last(h)))
            && (a != Resync ==> c.lastTime < d.lastTime <= Last(h) && (a == Idle <==> d.lastTime == Last(h)))
            && (a != Resync ==> Last(d.h) == Max(Last(c.h), d.lastTime) && d.h[..|c.h|] == c.h)
  {
    hide ServerReply, AppendChunk;
    ReplyShape(c, h, dbSize);
    var r := ServerReply(h, dbSize, c.lastTime + 1);
    if Round(c, h, dbSize, now).1 != Resync {
      hide ClientStep;
      ChunkAccepted(c, r, now);
    }
  }

  lemma RoundCases(c: Client, h: History, dbSize: nat, now: nat)
    requires Sane(c, h, dbSize) && now < U64
    ensures var (d, a) := Round(c, h, dbSize, now);
            && Sane(d, h, dbSize) && d.dbSize == c.dbSize
            && (a == Idle ==> d.lastTime == Last(h))
            && (a == Request ==> c.lastTime < d.lastTime < Last(h))
            && (a == Resync ==> !Settled(c, Last(h)) && Settled(d, Last(h)) && d.h == EMPTY
                                && d.lastTime == if Last(h) > c.dbSize then Last(h) - c.dbSize else 0)
            && (a != Resync ==> (Settled(c, Last(h)) ==> Settled(d, Last(h))) && |c.h| <= |d.h| && d.h[..|c.h|] == c.h)
            && (a != Resync ==> Last(d.h) == if c.lastTime < Last(h) then Max(Last(c.h), d.lastTime) else Last(c.h))
  {
    assert ServerReply(h, dbSize, c.lastTime + 1).last == Last(h);
    if c.lastTime < Last(h) {
      RoundWhenBehind(c, h, dbSize, now);
      hide ServerReply;
    }
  }

  /** The indices up to here the client has asked for or already holds. */
  function Covered(c: Client): nat { Max(c.lastTime, Last(c.h)) }

  /** One index of the window, after a reply to a client that is behind was accepted. */
  lemma RoundAgreesAt(c: Client, h: History, dbSize: nat, now: nat, k: nat)
    requires Sane(c, h, dbSize) && now < U64 && c.lastTime < Last(h)
    requires Round(c, h, dbSize, now).1 != Resync && k <= Covered(Round(c, h, dbSize, now).0)
    requires k < |h| && Last(h) - c.dbSize < k && (k <= Covered(c) ==> SameAt(c.h, h, k))
    ensures SameAt(Round(c, h, dbSize, now).0.h, h, k)
  {
    hide ServerReply, ClientStep, AppendChunk;
    ReplyShape(c, h, dbSize);
    var r := ServerReply(h, dbSize, c.lastTime + 1);
    ChunkAccepted(c, r, now);
    var d := ClientStep(c, r, now).0;
    if k <= Covered(c) {
      assert d.h[..|c.h|][k] == c.h[k];
    } else {
      var i := k - 1 - (r.val - |r.list|);
      assert r.list[i] == h[k];
      assert d.h[r.val - |r.list| + 1 + i] == r.list[i];
    }
  }

  lemma RoundAgrees(c: Client, h: History, dbSize: nat, now: nat, low: int)
    requires Sane(c, h, dbSize) && now < U64 && Agrees(c, h, low, Covered(c))
    requires Round(c, h, dbSize, now).1 != Resync
    ensures var d := Round(c, h, dbSize, now).0;
            Agrees(d, h, low, Covered(d))
  {
    if c.lastTime < Last(h) {
      var d := Round(c, h, dbSize, now).0;
      assert d.dbSize == c.dbSize;
      hide Round, SameAt;
      forall k: nat | low < k <= Covered(d) && k < |h| && Last(h) - c.dbSize < k
        ensures SameAt(d.h, h, k)
      {
        RoundAgreesAt(c, h, dbSize, now, k);
      }
    }
  }

  // ---- Whole exchanges ----

  datatype Outcome = Outcome(c: Client, replies: nat, resyncs: nat)

  /** Rounds until the client stops asking, the server being unchanged meanwhile. */
  function Sync(c: Client, h: History, dbSize: nat, now: nat): (o: Outcome)
    requires Sane(c, h, dbSize) && now < U64
    decreases if Settled(c, Last(h)) then 0 else 1, if c.lastTime < Last(h) then Last(h) - c.lastTime else 0
  {
    RoundCases(c, h, dbSize, now);
    var (d, a) := Round(c, h, dbSize, now);
    if a == Idle then Outcome(d, 1, 0)
    else
      var o := Sync(d, h, dbSize, now);
      Outcome(o.c, o.replies + 1, o.resyncs + if a == Resync then 1 else 0)
  }

  /** A settled client finishes without a resync, in at most one reply per missing index. */
  lemma {:induction false} SettledConverges(c: Client, h: History, dbSize: nat, now: nat, low: int)
    requires Sane(c, h, dbSize) && now < U64 && Settled(c, Last(h)) && Agrees(c, h, low, Covered(c))
    ensures var o := Sync(c, h, dbSize, now);
            && Sane(o.c, h, dbSize) && o.resyncs == 0 && o.replies <= Last(h) - c.lastTime + 1
            && o.c.dbSize == c.dbSize && o.c.lastTime == Last(h)
            && Last(o.c.h) == (if c.lastTime < Last(h) then Max(Last(c.h), Last(h)) else Last(c.h))
            && Agrees(o.c, h, low, Last(h))
    decreases Last(h) - c.lastTime
  {
    RoundCases(c, h, dbSize, now);
    RoundAgrees(c, h, dbSize, now, low);
    var (d, a) := Round(c, h, dbSize, now);
    if a == Request { SettledConverges(d, h, dbSize, now, low); }
  }

  /**
   From any last index and any ring the exchange ends with at most one resync. If it resynced, the
   client then holds the server's items on its whole window. If not, what it held before is untouched,
   and it holds the server's items wherever it did before and on every index it had neither asked for
   nor held.
   */
  lemma {:induction false} Converges(c: Client, h: History, dbSize: nat, now: nat, low: int)
    requires Sane(c, h, dbSize) && now < U64 && Agrees(c, h, low, Covered(c))
    ensures var o := Sync(c, h, dbSize, now);
            && o.c.dbSize == c.dbSize && o.c.lastTime == Last(h)
            && o.resyncs <= 1 && Sane(o.c, h, dbSize)
            && o.replies <= (if c.lastTime < Last(h) then Last(h) - c.lastTime else 0) + c.dbSize + 2
            && Agrees(o.c, h, if o.resyncs == 1 then -1 else low, Last(h))
            && (o.resyncs == 1 ==> Last(o.c.h) == Last(h))
            && (o.resyncs == 0 ==> && c.lastTime <= Last(h) && |c.h| <= |o.c.h| && o.c.h[..|c.h|] == c.h
                                   && Last(o.c.h) == if c.lastTime < Last(h) then Max(Last(c.h), Last(h)) else Last(c.h))
    decreases if Settled(c, Last(h)) then 0 else 1, if c.lastTime < Last(h) then Last(h) - c.lastTime else 0
  {
    RoundCases(c, h, dbSize, now);
    var (d, a) := Round(c, h, dbSize, now);
    if a == Resync {
      SettledConverges(d, h, dbSize, now, -1);
    } else {
      RoundAgrees(c, h, dbSize, now, low);
      if a == Request {
        Converges(d, h, dbSize, now, low);
        var o := Sync(c, h, dbSize, now);
        if o.resyncs == 0 { PrefixOfPrefix(c.h, d.h, o.c.h); }
      }
    }
  }

  // ---- When the exchange resyncs ----

  /** Where the reply to a client with last index t ends, on a server with last index last > t. */
  function ReplyEnd(t: nat, last: nat, dbSize: nat): nat
    requires t < last && dbSize > 0
  {
    var start := if last - t - 1 > dbSize then 1 + last - dbSize else t + 1;
    start + Min(TRANSMIT_COUNT, last + 1 - start) - 1
  }

  /** Told from the two last indices and the two sizes alone. */
  predicate WillResync(t: nat, last: nat, size: nat, dbSize: nat) {
    || t > last
    || (t < last && if size < TRANSMIT_COUNT then last - t > size
                    else last - t > dbSize + 1 && last - t - dbSize + TRANSMIT_COUNT > size)
  }

  lemma RoundResyncsIff(c: Client, h: History, dbSize: nat, now: nat)
    requires Sane(c, h, dbSize) && now < U64
    ensures var (d, a) := Round(c, h, dbSize, now);
            && (a == Resync <==> c.lastTime > Last(h)
                                 || (c.lastTime < Last(h) && ReplyEnd(c.lastTime, Last(h), dbSize) - c.lastTime > c.dbSize))
            && (a == Request ==> c.lastTime < Last(h) && d.lastTime == ReplyEnd(c.lastTime, Last(h), dbSize))
  {
    hide AppendChunk;
  }

  /** A round that asks again leaves the outlook as it was. */
  lemma OutlookKept(t: nat, last: nat, size: nat, dbSize: nat)
    requires 0 < size <= dbSize && t < last
    ensures var val := ReplyEnd(t, last, dbSize);
            && (val - t > size ==> WillResync(t, last, size, dbSize))
            && (val - t <= size && val < last ==> (WillResync(t, last, size, dbSize) <==> WillResync(val, last, size, dbSize)))
            && (val - t <= size && val == last ==> !WillResync(t, last, size, dbSize))
  {
  }

  lemma {:induction false} ResyncsIff(c: Client, h: History, dbSize: nat, now: nat)
    requires Sane(c, h, dbSize) && now < U64
    ensures Sync(c, h, dbSize, now).resyncs == 1 <==> WillResync(c.lastTime, Last(h), c.dbSize, dbSize)
    decreases if Settled(c, Last(h)) then 0 else 1, if c.lastTime < Last(h) then Last(h) - c.lastTime else 0
  {
    RoundCases(c, h, dbSize, now);
    RoundResyncsIff(c, h, dbSize, now);
    var (d, a) := Round(c, h, dbSize, now);
    if c.lastTime < Last(h) { OutlookKept(c.lastTime, Last(h), c.dbSize, dbSize); }
    hide Round, WillResync, ReplyEnd;
    match a
    case Resync => SettledConverges(d, h, dbSize, now, Covered(d));
    case Request => ResyncsIff(d, h, dbSize, now);
    case Idle =>
  }

  // ---- What becomes of indices asked for but no longer held ----

  /** A chunk that starts above the ring fills the gap between them with what its first item makes of it. */
  lemma {:induction false} ChunkFillsGap(c: Client, val: nat, list: seq<Item>, n: nat, now: nat, k: nat)
    requires 0 < n <= |list| <= val < U64 && now < U64 && Last(c.h) < k <= val - |list|
    ensures var h, pos := AppendChunk(c, val, list, n, now), val - |list| + 1;
            k < |h| && h[k] == GapItem(c.h, list[0], pos, c.dbSize, c.fill)
  {
    hide ItemIndex, GapItem;
    ChunkIndex(val, |list|, n - 1);
    var pos := val - |list| + n;
    if n == 1 {
      assert AppendChunk(c, val, list, 0, now) == c.h;
    } else {
      ChunkIsAppended(c, val, list, n - 1, now);
      ChunkFillsGap(c, val, list, n - 1, now, k);
      var h := AppendChunk(c, val, list, n - 1, now);
      assert AppendChunk(c, val, list, n, now) == Appended(h, list[n - 1], pos, c.dbSize, c.fill);
      hide AppendChunk;
      AppendedShows(h, list[n - 1], pos, c.dbSize, c.fill);
    }
  }

  /** What a round leaves at an index of the window that the client has asked for but does not hold. */
  lemma RoundFillsGap(c: Client, h: History, dbSize: nat, now: nat, k: nat)
    requires Sane(c, h, dbSize) && now < U64 && c.lastTime < Last(h) && Round(c, h, dbSize, now).1 != Resync
    requires Last(c.h) < k <= c.lastTime && Last(h) - c.dbSize < k
    ensures var d := Round(c, h, dbSize, now).0;
            k < |d.h| && d.h[k] == GapItem(c.h, h[c.lastTime + 1], c.lastTime + 1, c.dbSize, c.fill)
  {
    ReplyShape(c, h, dbSize);
    hide ServerReply, AppendChunk, GapItem;
    var r := ServerReply(h, dbSize, c.lastTime + 1);
    assert r.list[0] == h[c.lastTime + 1];
    ChunkFillsGap(c, r.val, r.list, |r.list|, now, k);
  }

  /** The exchange without a resync, index by index of the window. */
  lemma WindowIndexIff(c: Client, h: History, dbSize: nat, now: nat, k: nat)
    requires Sane(c, h, dbSize) && now < U64 && !WillResync(c.lastTime, Last(h), c.dbSize, dbSize)
    requires k < |h| && Last(h) - c.dbSize < k
    ensures SameAt(Sync(c, h, dbSize, now).c.h, h, k) <==>
            if k <= Last(c.h) then SameAt(c.h, h, k) else k <= c.lastTime ==> GapMatchesAt(c, h, k)
  {
    ResyncsIff(c, h, dbSize, now);
    Converges(c, h, dbSize, now, Covered(c));
    var o := Sync(c, h, dbSize, now);
    if k <= Last(c.h) {
      assert o.c.h[..|c.h|][k] == c.h[k];
    } else if k <= c.lastTime && c.lastTime < Last(h) {
      RoundCases(c, h, dbSize, now);
      RoundFillsGap(c, h, dbSize, now, k);
      var (d, a) := Round(c, h, dbSize, now);
      ResyncsIff(d, h, dbSize, now);
      if a == Request {
        Converges(d, h, dbSize, now, Covered(d));
        assert o.c.h[..|d.h|][k] == d.h[k];
      }
    }
  }

  /** Index k, asked for but not held, will be filled with what the server has there. */
  ghost predicate GapMatchesAt(c: Client, h: History, k: nat)
    requires Last(c.h) < k <= c.lastTime && k < |h|
  {
    c.lastTime < Last(h) && h[k] == GapItem(c.h, h[c.lastTime + 1], c.lastTime + 1, c.dbSize, c.fill)
  }

  /** So it is on every such index of the window. */
  ghost predicate GapMatches(c: Client, h: History) {
    forall k: nat :: Last(c.h) < k <= c.lastTime && k < |h| && Last(h) - c.dbSize < k ==> GapMatchesAt(c, h, k)
  }

  /**
   The client ends with the server's items on its whole window exactly when the exchange resyncs, which
   its last index and the sizes decide, or it agreed with the server on what its ring held and the
   indices it had asked for but does not hold are to be filled with the server's items.
   */
  lemma WholeWindowIff(c: Client, h: History, dbSize: nat, now: nat)
    requires Sane(c, h, dbSize) && now < U64
    ensures Agrees(Sync(c, h, dbSize, now).c, h, -1, Last(h)) <==>
            WillResync(c.lastTime, Last(h), c.dbSize, dbSize) || (Agrees(c, h, -1, Last(c.h)) && GapMatches(c, h))
  {
    ResyncsIff(c, h, dbSize, now);
    Converges(c, h, dbSize, now, Covered(c));
    var d := Sync(c, h, dbSize, now).c;
    if !WillResync(c.lastTime, Last(h), c.dbSize, dbSize) {
      forall k: nat | k < |h| && Last(h) - c.dbSize < k
        ensures SameAt(d.h, h, k) <==>
                if k <= Last(c.h) then SameAt(c.h, h, k) else k <= c.lastTime ==> GapMatchesAt(c, h, k)
      {
        WindowIndexIff(c, h, dbSize, now, k);
      }
      hide Sync, WillResync, SameAt, GapMatchesAt;
      if Agrees(d, h, -1, Last(h)) {
        forall k: nat | k < |h| && Last(h) - c.dbSize < k
          ensures SameAt(d.h, h, k)
        {
        }
      }
    }
  }

  /** A client that is up to date when its database is cleared never gets its window back. */
  lemma ClearedClientStaysEmpty(c: Client, h: History, dbSize: nat, now: nat)
    requires Sane(c, h, dbSize) && now < U64 && c.h == EMPTY && c.lastTime == Last(h) > 0
    ensures Sync(c, h, dbSize, now) == Outcome(c, 1, 0) && !Agrees(c, h, -1, Last(h))
  {
    RoundResyncsIff(c, h, dbSize, now);
    RoundCases(c, h, dbSize, now);
    Converges(c, h, dbSize, now, Covered(c));
    var (d, a) := Round(c, h, dbSize, now);
    assert a == Idle && d.h == c.h;
    assert !SameAt(c.h, h, Last(h));
  }

  /**
   A client whose ring is ahead of the server keeps it to the last item, whatever the server sends,
   unless the exchange resyncs; then it ends with the server's items instead.
   */
  lemma AheadClientKeepsItsOwn(c: Client, h: History, dbSize: nat, now: nat)
    requires Sane(c, h, dbSize) && now < U64 && Last(h) <= Last(c.h)
    ensures var o := Sync(c, h, dbSize, now);
            if WillResync(c.lastTime, Last(h), c.dbSize, dbSize) then Last(o.c.h) == Last(h) && Agrees(o.c, h, -1, Last(h))
            else o.c.h == c.h
  {
    ResyncsIff(c, h, dbSize, now);
    Converges(c, h, dbSize, now, Covered(c));
    var o := Sync(c, h, dbSize, now);
    hide Sync, WillResync;
    if o.resyncs == 0 { assert o.c.h == o.c.h[..|c.h|]; }
  }

  /** An empty client gets the whole window, from any last index, exactly when it resyncs or its gap is filled rightly. */
  lemma EmptyClientIff(c: Client, h: History, dbSize: nat, now: nat)
    requires Sane(c, h, dbSize) && now < U64 && c.h == EMPTY
    ensures Agrees(Sync(c, h, dbSize, now).c, h, -1, Last(h)) <==>
            WillResync(c.lastTime, Last(h), c.dbSize, dbSize) || GapMatches(c, h)
  {
    assert Agrees(c, h, -1, 0);
    WholeWindowIff(c, h, dbSize, now);
  }

  /** Then its ring shows the server's item in every slot of its window; from last index 0 that is always so. */
  lemma EmptyClientMirrorsServer(c: Client, h: History, dbSize: nat, now: nat, clientRing: seq<Item>, serverRing: seq<Item>)
    requires Sane(c, h, dbSize) && now < U64 && c.h == EMPTY
    requires c.lastTime == 0 || WillResync(c.lastTime, Last(h), c.dbSize, dbSize) || GapMatches(c, h)
    requires |clientRing| == c.dbSize && Refines(clientRing, Sync(c, h, dbSize, now).c.h)
    requires |serverRing| == dbSize && Refines(serverRing, h)
    ensures Last(Sync(c, h, dbSize, now).c.h) == Last(h)
    ensures forall k: nat :: Last(h) - c.dbSize < k <= Last(h) ==>
              clientRing[Slot(k, c.dbSize)] == serverRing[Slot(k, dbSize)] == h[k]
  {
    EmptyClientIff(c, h, dbSize, now);
    Converges(c, h, dbSize, now, Covered(c));
    var d := Sync(c, h, dbSize, now).c;
    hide Sync, WillResync, GapMatches;
    assert SameAt(d.h, h, Last(h));
    forall k: nat | Last(h) - c.dbSize < k <= Last(h)
      ensures clientRing[Slot(k, c.dbSize)] == serverRing[Slot(k, dbSize)] == h[k]
    {
      assert SameAt(d.h, h, k);
    }
  }
}
