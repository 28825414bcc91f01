/**
 The receiving half of the data-array socket: reads through the spill buffer
 `rda` and the kernel's queue, and the frame loop of `readEvent`. How many
 bytes each kernel read returns is left open, and so is what arrives during an
 event: the count of available bytes is cached until the event is over.
 */
module FrameSocket {
  import opened Wrappers
  import opened Codec
  import opened FrameParser

  function Sizes(list: seq<Bytes>): seq<nat> {
    seq(|list|, i requires 0 <= i < |list| => |list[i]|)
  }

  /** The flag "waiting for a keep-alive response" after some deliveries. */
  function FlagAfter(flag: bool, out: seq<Delivery>): bool {
    if out == [] then flag
    else FlagAfter(flag, out[..|out| - 1]) && !out[|out| - 1].KeepAlive?
  }

  /** The answers sent meanwhile: one for each keep-alive that found the flag clear. */
  function Answers(flag: bool, out: seq<Delivery>): nat {
    if out == [] then 0
    else
      var init := out[..|out| - 1];
      Answers(flag, init) + if out[|out| - 1].KeepAlive? && !FlagAfter(flag, init) then 1 else 0
  }

  lemma {:induction false} SumMono(held: seq<nat>, i: nat)
    requires i <= |held|
    ensures Sum(held[..i]) <= Sum(held)
    ensures i < |held| ==> Sum(held[..i]) + held[i] == Sum(held[..i + 1]) <= Sum(held)
  {
    var n := |held| - 1;
    if i > n {
      assert held[..i] == held;
    } else {
      SumMono(held[..n], i);
      assert held[..n][..i] == held[..i];
      if i < n { assert held[..n][..i + 1] == held[..i + 1]; } else { assert held[..i + 1] == held; }
    }
  }

  class DataArraySocket {
    const maxReadBuffers: nat
    const maxReadSize: nat
    var rda: Bytes
    var rs: nat
    var cached: bool           // 0x20: read_available_fd answers with `rs`
    var kernel: Bytes          // everything still to come; the first `rs` bytes are known to be there
    var readSize: nat
    var readId: nat
    var current: Option<Bytes>
    var receiveList: seq<Bytes>
    var waitingKeepAlive: bool
    var answersSent: nat
    var active: bool
    ghost var delivered: seq<Delivery>

    function Lim(): Limits { Limits(maxReadBuffers, maxReadSize) }

    function Place(): Parser
      reads this
    {
      if current.None? then Idle else Body(readSize, readId, current.value)
    }

    /** What a read event can work on. */
    function Pending(): Bytes
      requires rs <= |kernel|
      reads this
    {
      rda + kernel[..rs]
    }

    /** What it does not see, arrived meanwhile or yet to come. */
    function Tail(): Bytes
      requires rs <= |kernel|
      reads this
    {
      kernel[rs..]
    }

    ghost predicate Valid()
      reads this
    {
      && rs <= |kernel| && !cached && maxReadSize < INT_MAX
      && (current.None? <==> readSize == 0)
      && Live(Place())
      && WithinQuota(Place(), Sizes(receiveList), Lim())
    }

    /** A new connection, over which `stream` will arrive. */
    constructor (buffers: nat, size: nat, stream: Bytes)
      requires size < INT_MAX
      ensures Valid() && active && View() == FRESH && rs == 0 && kernel == stream
    {
      maxReadBuffers, maxReadSize := buffers, size;
      rda, rs, cached, kernel := [], 0, false, stream;
      readSize, readId, current, receiveList := 0, 0, None, [];
      waitingKeepAlive, answersSent, active := false, 0, true;
      delivered := [];
    }

    /** The receiver between read events, when everything read has been moved to `rda`. */
    ghost function View(): Receiver
      reads this
    {
      Receiver(Progress(delivered, Place(), if active then rda else []), Sizes(receiveList), !active)
    }

    function PendingRead(): nat
      requires rs <= |kernel|
      reads this
    {
      rs + |rda|
    }

    /** `read_available_fd`, when the kernel's queue holds `queued` bytes. */
    method ReadAvailable(queued: nat) returns (r: int)
      ensures r == if cached then rs else if queued > 0 then queued else -1
    {
      if cached { return rs; }
      return if queued > 0 then queued else -1;
    }

    /** `rs = read_available_fd()` under flag 0x20: whatever has arrived meanwhile, the count stays. */
    method Recount(queued: nat)
      modifies this`rs, this`cached
      ensures rs == old(rs) && !cached
    {
      cached := true;
      var r := ReadAvailable(queued);
      rs := r;
      cached := false;
    }

    /** The loop of `read`: kernel reads until `size` bytes have come. */
    method ReadKernel(size: nat) returns (data: Bytes)
      requires size <= rs <= |kernel| && !cached
      modifies this`rs, this`cached, this`kernel
      ensures rs == old(rs) - size && !cached
      ensures data == old(kernel)[..size] && kernel == old(kernel)[size..]
    {
      data := [];
      while |data| < size
        invariant |data| <= size && rs == old(rs) - |data| && !cached
        invariant data == old(kernel)[..|data|] && kernel == old(kernel)[|data|..]
      {
        var r: nat :| 0 < r <= size - |data|;
        data := data + kernel[..r];
        kernel := kernel[r..];
        rs := rs - r;
        var queued: nat :| rs <= queued <= |kernel|;
        Recount(queued);
      }
    }

    /** `read(uint8_t *, int)`. */
    method ReadRaw(size: nat) returns (data: Bytes)
      requires rs <= |kernel| && !cached && 0 < size <= PendingRead()
      modifies this`rda, this`rs, this`cached, this`kernel
      ensures rs <= |kernel| && !cached && Tail() == old(Tail())
      ensures data == old(Pending())[..size] && Pending() == old(Pending())[size..]
    {
      if rda != [] && size <= |rda| {
        data := rda[..size];
        rda := rda[size..];
        return;
      }
      var more := ReadKernel(size - |rda|);
      data := rda + more;
      rda := [];
    }

    /** `read(int)`: as much as is pending, up to `size`. */
    method ReadUpTo(size: nat) returns (data: Bytes)
      requires rs <= |kernel| && !cached && 0 < size < INT_MAX && PendingRead() > 0
      modifies this`rda, this`rs, this`cached, this`kernel
      ensures rs <= |kernel| && !cached && Tail() == old(Tail())
      ensures var n := if size < |old(Pending())| then size else |old(Pending())|;
              data == old(Pending())[..n] && Pending() == old(Pending())[n..]
    {
      var n := rs + |rda|;
      data := ReadRaw(if n < size then n else size);
    }

    /** The quota check, its running sum kept in 32 bits. */
    method QuotaExceeded() returns (e: bool)
      requires maxReadSize < INT_MAX && Sum(Sizes(receiveList)) <= maxReadSize
      ensures e == !Admits(Lim(), Sizes(receiveList), readSize)
      ensures e <==> readSize + Sum(Sizes(receiveList)) > maxReadSize || |receiveList| + 1 > maxReadBuffers
    {
      if readSize > maxReadSize || |receiveList| >= maxReadBuffers { return true; }
      var size := readSize;
      ghost var held := Sizes(receiveList);
      for i := 0 to |receiveList|
        invariant size == readSize + Sum(held[..i]) <= maxReadSize
      {
        SumMono(held, i);
        size := (size + |receiveList[i]|) % 0x1_0000_0000;
        if size > maxReadSize { return true; }
      }
      assert held[..|receiveList|] == held;
      return false;
    }

    method ReadHeader()
      requires rs <= |kernel| && !cached && PendingRead() >= 8
      modifies this`rda, this`rs, this`cached, this`kernel, this`readSize, this`readId
      ensures rs <= |kernel| && !cached && Tail() == old(Tail())
      ensures readSize == FromLittleEndian(old(Pending())[..4]) && readId == FromLittleEndian(old(Pending())[4..8])
      ensures Pending() == old(Pending())[8..]
    {
      hide FromLittleEndian;
      ghost var b := Pending();
      var w := ReadRaw(4);
      readSize := FromLittleEndian(w);
      w := ReadRaw(4);
      readId := FromLittleEndian(w);
      assert b[4..][..4] == b[4..8] && b[4..][4..] == b[8..];
    }

    /** A keep-alive arrives: it answers our request, or it is one to answer. */
    method TakeKeepAlive()
      modifies this`waitingKeepAlive, this`answersSent, this`delivered
      ensures delivered == old(delivered) + [KeepAlive] && !waitingKeepAlive
      ensures answersSent == old(answersSent) + if old(waitingKeepAlive) then 0 else 1
    {
      if !waitingKeepAlive { answersSent := answersSent + 1; } else { waitingKeepAlive := false; }
      delivered := delivered + [KeepAlive];
    }

    ghost function Left(): Fed
      requires rs <= |kernel| && Live(Place())
      reads this
    {
      Feed(Place(), Sizes(receiveList), Pending(), Lim())
    }

    /** Nothing more can be done with what is pending. */
    ghost function Rest(): Fed
      requires rs <= |kernel|
      reads this
    {
      Fed(Progress([], Place(), Pending()), Sizes(receiveList), !active)
    }

    /** A frame has been started, an empty one included, and the quota has room for it. */
    ghost predicate Receiving()
      reads this
    {
      && rs <= |kernel| && !cached && current.Some? && maxReadSize < INT_MAX
      && (|current.value| < readSize || (readSize == 0 && current.value == []))
      && readSize + Sum(Sizes(receiveList)) <= maxReadSize && |receiveList| < maxReadBuffers
    }

    ghost function LeftReceiving(): Fed
      requires Receiving()
      reads this
    {
      if readSize == 0 then Before([Frame([], readId)], Feed(Idle, Sizes(receiveList) + [0], Pending(), Lim()))
      else Left()
    }

    /** Adds what is pending to the frame being received, and delivers it when complete. */
    method FillFrame() returns (wait: bool, ghost out: seq<Delivery>)
      requires Receiving()
      modifies this`rda, this`rs, this`cached, this`kernel, this`readSize, this`current, this`receiveList, this`delivered
      ensures Valid() && Tail() == old(Tail())
      ensures delivered == old(delivered) + out && |out| <= 1 && out != [KeepAlive]
      ensures old(LeftReceiving()) == Before(out, Left())
      ensures if wait then active ==> Left() == Rest()
              else |Pending()| < |old(Pending())| || (old(readSize) == 0 && Pending() == old(Pending()))
    {
      wait, out := false, [];
      ghost var size, got, b, held := readSize, current.value, Pending(), Sizes(receiveList);
      SumSnoc(held, size);
      if readSize > 0 {
        if PendingRead() == 0 {
          FeedPart(size, readId, got, held, [], [], Lim());
          assert b == [] + [] && got + [] == got;
          return true, [];
        }
        var ba := ReadUpTo(readSize - |current.value|);
        current := Some(current.value + ba);
        assert b == ba + Pending();
        FeedPart(size, readId, got, held, ba, Pending(), Lim());
      }
      if |current.value| == readSize {
        out := [Frame(current.value, readId)];
        Deliver();
      }
    }

    method Deliver()
      requires current.Some? && |current.value| == readSize
      modifies this`readSize, this`current, this`receiveList, this`delivered
      ensures readSize == 0 && current == None
      ensures delivered == old(delivered) + [Frame(old(current.value), readId)]
      ensures Sizes(receiveList) == Sizes(old(receiveList)) + [old(readSize)]
    {
      ghost var held := Sizes(receiveList);
      delivered := delivered + [Frame(current.value, readId)];
      receiveList := receiveList + [current.value];
      assert Sizes(receiveList) == held + [readSize];
      readSize, current := 0, None;
    }

    /** Reads a header: a keep-alive, a frame the quota refuses, or a frame to receive. */
    method StartFrame() returns (next: Next)
      requires Valid() && active && current.None? && PendingRead() >= 8
      modifies this`rda, this`rs, this`cached, this`kernel, this`readSize, this`readId, this`current, this`active,
               this`waitingKeepAlive, this`answersSent, this`delivered
      ensures rs <= |kernel| && !cached && Tail() == old(Tail()) && |Pending()| < |old(Pending())|
      ensures active == !next.Refused?
      ensures if next.Opened? then Receiving() && old(Left()) == LeftReceiving() else Valid() && current == None
      ensures next.Again? ==> old(Left()) == Before([KeepAlive], Left())
      ensures next.Refused? ==> old(Left()) == Rest()
      ensures var size, id := FromLittleEndian(old(Pending())[..4]), FromLittleEndian(old(Pending())[4..8]);
              && (next.Again? <==> size == 0 && id == 0xffff_ffff)
              && (next.Refused? <==> !next.Again? && (size + Sum(Sizes(receiveList)) > maxReadSize || |receiveList| + 1 > maxReadBuffers))
      ensures delivered == old(delivered) + (if next.Again? then [KeepAlive] else [])
      ensures waitingKeepAlive == (old(waitingKeepAlive) && !next.Again?)
      ensures answersSent == old(answersSent) + if next.Again? && !old(waitingKeepAlive) then 1 else 0
    {
      hide FromLittleEndian, Sum;
      ReadHeader();
      if readSize == 0 && readId == KEEP_ALIVE_ID {
        TakeKeepAlive();
        return Again;
      }
      var e := QuotaExceeded();
      if e {
        readSize := 0;
        active := false;
        return Refused;
      }
      current := Some([]);
      return Opened;
    }

    /** One round of the frame loop; stops when the bytes run out or the quota refuses a frame. */
    method Round() returns (go: bool, ghost out: seq<Delivery>)
      requires Valid() && active
      modifies this
      ensures Valid() && Tail() == old(Tail()) && delivered == old(delivered) + out && |out| <= 1
      ensures old(Left()) == Before(out, if active then Left() else Rest())
      ensures if go then active && |Pending()| < |old(Pending())| else active ==> Left() == Rest()
      ensures waitingKeepAlive == (old(waitingKeepAlive) && out != [KeepAlive])
      ensures answersSent == old(answersSent) + if out == [KeepAlive] && !old(waitingKeepAlive) then 1 else 0
    {
      go, out := false, [];
      BeforeNothing(Left());
      if PendingRead() == 0 {
        assert Pending() == [];
        if current.Some? { assert current.value + [] == current.value; }
        return;
      }
      if readSize == 0 && PendingRead() < 8 { return; }
      hide Feed, Sum, Sizes, Admits;
      if readSize == 0 { go, out := OpenFrame(); } else { go, out := ContinueFrame(); }
    }

    /** The round of a frame whose header was read before. */
    method ContinueFrame() returns (go: bool, ghost out: seq<Delivery>)
      requires Valid() && active && current.Some?
      modifies this`rda, this`rs, this`cached, this`kernel, this`readSize, this`current, this`receiveList, this`delivered
      ensures Valid() && Tail() == old(Tail())
      ensures delivered == old(delivered) + out && |out| <= 1 && out != [KeepAlive]
      ensures old(Left()) == Before(out, Left())
      ensures if go then |Pending()| < |old(Pending())| else Left() == Rest()
    {
      hide Feed, Sum;
      var wait;
      wait, out := FillFrame();
      go := !wait;
    }

    /** The round that reads a header. */
    method OpenFrame() returns (go: bool, ghost out: seq<Delivery>)
      requires Valid() && active && current.None? && PendingRead() >= 8
      modifies this
      ensures Valid() && Tail() == old(Tail()) && delivered == old(delivered) + out && |out| <= 1
      ensures old(Left()) == Before(out, if active then Left() else Rest())
      ensures if go then active && |Pending()| < |old(Pending())| else active ==> Left() == Rest()
      ensures waitingKeepAlive == (old(waitingKeepAlive) && out != [KeepAlive])
      ensures answersSent == old(answersSent) + if out == [KeepAlive] && !old(waitingKeepAlive) then 1 else 0
    {
      hide Feed, Sum;
      go, out := false, [];
      var next := StartFrame();
      if next.Again? { return true, [KeepAlive]; }
      if next.Refused? {
        BeforeNothing(Rest());
        return;
      }
      var wait;
      wait, out := FillFrame();
      go := !wait;
    }

    method ReadEvent() returns (ghost out: seq<Delivery>)
      requires Valid() && active
      modifies this
      ensures Valid() && Tail() == old(Tail())
      ensures old(Left()) == Before(out, Rest())
      ensures delivered == old(delivered) + out
      ensures waitingKeepAlive == FlagAfter(old(waitingKeepAlive), out)
      ensures answersSent == old(answersSent) + Answers(old(waitingKeepAlive), out)
    {
      hide Feed, Sum;
      out := [];
      var go := true;
      BeforeNothing(Left());
      while go
        invariant Valid() && Tail() == old(Tail())
        invariant go ==> active
        invariant old(Left()) == Before(out, if go then Left() else Rest())
        invariant delivered == old(delivered) + out
        invariant waitingKeepAlive == FlagAfter(old(waitingKeepAlive), out)
        invariant answersSent == old(answersSent) + Answers(old(waitingKeepAlive), out)
        decreases go, |Pending()|
      {
        ghost var more;
        go, more := Round();
        BeforeBefore(out, more, if go then Left() else Rest());
        FlagsSnoc(old(waitingKeepAlive), out, more);
        out := out + more;
      }
    }

    /** `read_fd(rda)`: one round, since the second count is the cached 0. */
    method Spill(queued: nat)
      requires 0 < rs <= |kernel| && !cached
      modifies this`rda, this`rs, this`cached, this`kernel
      ensures rs == 0 && !cached && rda == old(Pending()) && kernel == old(Tail())
    {
      var again := true;
      while again
        invariant again ==> rs == old(rs) && rda == old(rda) && kernel == old(kernel)
        invariant !again ==> rs == 0 && rda == old(Pending()) && kernel == old(Tail())
        invariant !cached
        decreases again
      {
        rda := rda + kernel[..rs];
        kernel := kernel[rs..];
        rs := 0;
        Recount(queued);
        again := rs > 0;
      }
    }

    /** `close`, and what `stateEvent` then does to a frame half received. */
    method CloseByPeer()
      requires Valid()
      modifies this`rda, this`rs, this`readSize, this`current, this`active
      ensures Valid() && !active && rs == 0 && rda == [] && current == None
    {
      rs, rda := 0, [];
      active := false;
      readSize, current := 0, None;
    }

    /**
     A PollIn event that finds `queued` bytes in the kernel's queue. It parses these and no more,
     whatever arrives meanwhile (`later` when the rest is spilled to `rda`). Finding none means that the
     peer has closed.
     */
    method PollIn(queued: nat, later: nat)
      requires Valid() && active && rs == 0 && queued <= |kernel|
      modifies this
      ensures Valid() && rs == 0 && kernel == old(kernel)[queued..]
      ensures View() == Step(old(View()), if queued > 0 then Read(old(kernel)[..queued]) else PeerClosed, Lim())
      ensures exists out ::
                && delivered == old(delivered) + out && waitingKeepAlive == FlagAfter(old(waitingKeepAlive), out)
                && answersSent == old(answersSent) + Answers(old(waitingKeepAlive), out)
    {
      NoFlags(waitingKeepAlive);
      hide Feed, FlagAfter, Answers, Sum;
      var r := ReadAvailable(queued);
      if r < 0 {
        CloseByPeer();
        assert delivered + [] == delivered;
        return;
      }
      rs := r;
      ghost var out := ReadEvent();
      if rs > 0 { Spill(later); } else { assert Pending() == rda && Tail() == kernel; }
    }

    /** The consumer gives back the i-th buffer it holds. */
    method ReleaseBuffer(i: nat)
      requires Valid() && active
      modifies this`receiveList
      ensures Valid() && View() == Step(old(View()), Release(i), Lim())
      ensures receiveList == if i < |old(receiveList)| then old(receiveList)[..i] + old(receiveList)[i + 1..] else old(receiveList)
      ensures i < |old(receiveList)| ==> Sum(Sizes(receiveList)) == Sum(Sizes(old(receiveList))) - |old(receiveList)[i]|
    {
      if i < |receiveList| {
        ghost var held := Sizes(receiveList);
        SumRemoved(held, i);
        receiveList := receiveList[..i] + receiveList[i + 1..];
        assert Sizes(receiveList) == held[..i] + held[i + 1..];
      }
    }
  }

  lemma NoFlags(flag: bool)
    ensures FlagAfter(flag, []) == flag && Answers(flag, []) == 0
  {
  }

  lemma FlagsSnoc(flag: bool, out: seq<Delivery>, more: seq<Delivery>)
    requires |more| <= 1
    ensures FlagAfter(flag, out + more) == (FlagAfter(flag, out) && more != [KeepAlive])
    ensures Answers(flag, out + more) == Answers(flag, out) + if more == [KeepAlive] && !FlagAfter(flag, out) then 1 else 0
  {
    if more == [] {
      assert out + more == out;
    } else {
      assert (out + more)[..|out|] == out;
    }
  }

  datatype Next = Again | Refused | Opened
}
