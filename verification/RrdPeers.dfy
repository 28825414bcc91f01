/**
 The two ends of the replication protocol as the program runs them: the server
 reads its database, serializes and compresses the reply, the client takes it
 apart again and updates its own database.
 */
module RrdPeers {
  import opened Wrappers
  import opened Codec
  import opened DataStreamModel
  import opened Compression
  import opened RrdModel
  import Spec = RrdSpec
  import opened Replication

  function ReplyValues(r: Reply): seq<Value> {
    [Int(8, false, r.val), BlobList(r.list), Int(8, false, r.last)]
  }

  ghost predicate Sendable(r: Reply) {
    r.val < U64 && r.last < U64 && WellFormed(BlobList(r.list))
  }

  function DecodeReply(s: Bytes): Option<Reply> {
    match Decode(IntT(8, false), s)
    case None => None
    case Some(Parsed(val, a)) =>
      match Decode(BlobListT, s[a..])
      case None => None
      case Some(Parsed(list, b)) =>
        match Decode(IntT(8, false), s[a..][b..])
        case None => None
        case Some(Parsed(last, _)) =>
          if val.Int? && list.BlobList? && last.Int? && val.n >= 0 && last.n >= 0
          then Some(Reply(val.n, list.l, last.n)) else None
  }

  lemma EncodeThree(x: Value, y: Value, z: Value)
    ensures EncodeAll([x, y, z]) == Encode(x) + (Encode(y) + Encode(z))
  {
    hide Encode;
    assert [x, y, z][1..] == [y, z] && [y, z][1..] == [z] && [z][1..] == [];
    assert EncodeAll([z]) == Encode(z);
    assert EncodeAll([y, z]) == Encode(y) + Encode(z);
  }

  /** The client parses the very reply the server serialized. */
  lemma ReplyRoundTrip(r: Reply)
    requires Sendable(r)
    ensures DecodeReply(EncodeAll(ReplyValues(r))) == Some(r)
  {
    PowersOf256();
    var vs := ReplyValues(r);
    var v, l, t := Encode(vs[0]), Encode(vs[1]), Encode(vs[2]);
    EncodeThree(vs[0], vs[1], vs[2]);
    hide Encode, Decode, EncodeAll;
    RoundTrip(vs[0], l + t);
    RoundTrip(vs[1], t);
    RoundTrip(vs[2], []);
    assert (v + (l + t))[|v|..] == l + t && (l + t)[|l|..] == t == t + [];
  }

  method SerializeReply(r: Reply) returns (message: Bytes)
    requires Sendable(r)
    ensures message == EncodeAll(ReplyValues(r))
  {
    UnsignedFits(r.val);
    UnsignedFits(r.last);
    hide Encode, EncodeAll, WellFormed;
    ghost var vs := ReplyValues(r);
    EncodeThree(vs[0], vs[1], vs[2]);
    AfterFirst(Encode(vs[0]), Encode(vs[1]), Encode(vs[2]));
    var ds := new DataStream();
    ds.WriteInt(8, false, r.val);
    assert ds.data == Encode(vs[0]);
    ds.WriteBlobList(r.list);
    ds.WriteInt(8, false, r.last);
    message := ds.data;
  }

  method ParseReply(da: Bytes) returns (r: Option<Reply>)
    requires |da| <= INT_MAX
    ensures r == DecodeReply(da)
  {
    hide ParseSize, DecodeBlobs, FromLittleEndian;
    var ds := new DataStream.Over(da);
    assert da[0..] == da;
    var val := ds.ReadInt(8, false, 0);
    ghost var a := ds.pos;
    var list := ds.ReadBlobList([]);
    ghost var b := ds.pos;
    if !ds.fail { SliceTwice(da, a, b); }
    var dbLastTime := ds.ReadInt(8, false, 0);
    if ds.fail { return None; }
    r := Some(Reply(val, list, dbLastTime));
  }

  lemma ReplyIsSendable(h: Spec.History, dbSize: nat, index: nat)
    requires 0 < dbSize < SIZE_LIMIT && Spec.Last(h) < U64
    requires forall item :: item in h ==> |item| <= INT_MAX
    ensures Sendable(ServerReply(h, dbSize, index))
  {
    var r := ServerReply(h, dbSize, index);
    forall j | 0 <= j < |r.list|
      ensures r.list[j] in h
    {
      assert r.list[j] == Spec.WindowItem(h, dbSize, Spec.ReadStart(h, dbSize, index) + j);
    }
  }

  /** A reply as it is sent. */
  function ReplyMessage(z: Zip, r: Reply): Bytes {
    Compressed(z, EncodeAll(ReplyValues(r)))
  }

  /** What a client makes of a message. */
  function ReadMessage(z: Zip, rda: Bytes): Option<Reply> {
    DecodeReply(Uncompressed(z, rda))
  }

  /** An array of 2^31 bytes or more cannot be read back. */
  ghost predicate Fits(r: Reply) {
    |EncodeAll(ReplyValues(r))| <= INT_MAX
  }

  lemma MessageRoundTrip(z: Zip, r: Reply)
    requires Faithful(z) && Sendable(r) && Fits(r)
    ensures ReadMessage(z, ReplyMessage(z, r)) == Some(r)
  {
    hide EncodeAll, DecodeReply, Sendable, Compressed, Uncompressed;
    ReplyRoundTrip(r);
    CompressionRoundTrip(z, EncodeAll(ReplyValues(r)));
  }

  /** The server half. */
  method Transmit(z: Zip, rrd: Rrd, index: nat) returns (message: Bytes)
    requires rrd.Valid() && 0 < rrd.dbSize < SIZE_LIMIT && index < U64
    requires forall item :: item in rrd.history ==> |item| <= INT_MAX
    requires Fits(ServerReply(rrd.history, rrd.dbSize, index))
    ensures message == ReplyMessage(z, ServerReply(rrd.history, rrd.dbSize, index))
    ensures Faithful(z) ==> ReadMessage(z, message) == Some(ServerReply(rrd.history, rrd.dbSize, index))
  {
    ReplyIsSendable(rrd.history, rrd.dbSize, index);
    var list, i, lastIndex := rrd.Read(index, TRANSMIT_COUNT);
    ghost var r := Reply(i, list, lastIndex);
    assert r == ServerReply(rrd.history, rrd.dbSize, index);
    hide EncodeAll, DecodeReply, Sendable, Compressed, Uncompressed, ServerReply, ReadMessage;
    if Faithful(z) { MessageRoundTrip(z, r); }
    var ds := SerializeReply(Reply(i, list, lastIndex));
    message := Compress(z, ds);
  }

  /** A request arrives at the server: its first eight bytes are the index wanted. */
  method Received(z: Zip, rrd: Rrd, da: Bytes) returns (message: Bytes)
    requires rrd.Valid() && 0 < rrd.dbSize < SIZE_LIMIT && |da| >= 8
    requires forall item :: item in rrd.history ==> |item| <= INT_MAX
    requires Fits(ServerReply(rrd.history, rrd.dbSize, FromLittleEndian(da[..8])))
    ensures message == ReplyMessage(z, ServerReply(rrd.history, rrd.dbSize, FromLittleEndian(da[..8])))
    ensures Faithful(z) ==> ReadMessage(z, message) == Some(ServerReply(rrd.history, rrd.dbSize, FromLittleEndian(da[..8])))
  {
    PowersOf256();
    FromLittleEndianBound(da[..8]);
    message := Transmit(z, rrd, FromLittleEndian(da[..8]));
  }

  class RrdClient {
    const rrd: Rrd
    var lastTime: nat

    ghost predicate Valid()
      reads this, rrd, rrd.dataBase
    {
      rrd.Valid() && rrd.dbSize > 0 && lastTime < U64
    }

    ghost function View(): Client
      reads this, rrd
    {
      Client(rrd.history, rrd.dbSize, rrd.interval, rrd.fill, lastTime)
    }

    constructor (rrd: Rrd)
      requires rrd.Valid() && rrd.dbSize > 0
      ensures Valid() && this.rrd == rrd && lastTime == 0
    {
      this.rrd := rrd;
      lastTime := 0;
    }

    /** The request: the index after the last, in eight bytes. */
    method Request() returns (ba: Bytes)
      ensures |ba| == 8 && FromLittleEndian(ba) == (lastTime + 1) % U64
    {
      PowersOf256();
      LittleEndianRoundTrip(8, (lastTime + 1) % U64);
      ba := LittleEndian(8, (lastTime + 1) % U64);
    }

    method AppendList(val: nat, list: seq<Bytes>, now: nat)
      requires Valid() && now < U64
      modifies rrd, rrd.dataBase
      ensures Valid() && View() == old(View()).(h := AppendChunk(old(View()), val, list, |list|, now))
    {
      for i := 0 to |list|
        invariant Valid() && View() == old(View()).(h := AppendChunk(old(View()), val, list, i, now))
      {
        var _ := rrd.Append(list[i], ItemIndex(val, |list|, i), now);
      }
    }

    /** A reply arrives; None when it does not uncompress or parse. */
    method TcpRead(z: Zip, rda: Bytes, now: nat) returns (action: Option<Action>)
      requires Valid() && now < U64 && |Uncompressed(z, rda)| <= INT_MAX
      modifies this`lastTime, rrd, rrd.dataBase
      ensures Valid()
      ensures match ReadMessage(z, rda)
              case None => action == None && View() == old(View())
              case Some(r) => action.Some? && (View(), action.value) == ClientStep(old(View()), r, now)
    {
      hide Uncompressed, DecodeReply;
      var da := Uncompress(z, rda);
      NothingToRead();
      if da == [] { return None; }
      var reply := ParseReply(da);
      if reply.None? { return None; }
      DecodedReplyFits(da);
      var Reply(val, list, dbLastTime) := reply.value;
      var dbSize := rrd.dbSize;
      if val < lastTime || val - lastTime > dbSize {
        rrd.Clear();
        lastTime := if dbLastTime > dbSize then dbLastTime - dbSize else 0;
        return Some(Resync);
      }
      if |list| > 0 {
        AppendList(val, list, now);
        lastTime := val;
        if val != dbLastTime { return Some(Action.Request); }
      }
      return Some(Idle);
    }
  }

  /**
   A request, the server's reply and what the client does with it are one round of the protocol,
   unless the reply is larger than the server's socket transmits.
   */
  method Exchange(z: Zip, client: RrdClient, server: Rrd, maxWriteSize: nat, now: nat) returns (action: Option<Action>)
    requires Faithful(z)
    requires client.Valid() && server.Valid() && server.dbSize < SIZE_LIMIT && now < U64
    requires client.rrd != server && client.rrd.dataBase != server.dataBase
    requires Sane(client.View(), server.history, server.dbSize)
    requires forall item :: item in server.history ==> |item| <= INT_MAX
    requires Fits(ServerReply(server.history, server.dbSize, client.lastTime + 1))
    modifies client`lastTime, client.rrd, client.rrd.dataBase
    ensures client.Valid()
    ensures var r := ServerReply(server.history, server.dbSize, old(client.lastTime) + 1);
            action == None <==> |ReplyMessage(z, r)| > maxWriteSize
    ensures action.Some? ==> (client.View(), action.value) == Round(old(client.View()), server.history, server.dbSize, now)
    ensures action == None ==> client.View() == old(client.View())
  {
    hide FromLittleEndian, DecodeReply, EncodeAll, ServerReply, ClientStep, Compressed, Uncompressed;
    var ba := client.Request();
    assert ba[..8] == ba;
    ghost var r := ServerReply(server.history, server.dbSize, client.lastTime + 1);
    CompressionRoundTrip(z, EncodeAll(ReplyValues(r)));
    var message := Received(z, server, ba);
    if |message| > maxWriteSize { return None; }
    action := client.TcpRead(z, message, now);
  }

  lemma NothingToRead()
    ensures DecodeReply([]) == None
  {
  }

  lemma DecodedReplyFits(s: Bytes)
    ensures var r := DecodeReply(s); r.Some? ==> r.value.val < U64 && r.value.last < U64
  {
    PowersOf256();
    if DecodeReply(s).Some? {
      var a := Decode(IntT(8, false), s).value.used;
      var b := Decode(BlobListT, s[a..]).value.used;
      FromLittleEndianBound(s[..8]);
      FromLittleEndianBound(s[a..][b..][..8]);
    }
  }
}
