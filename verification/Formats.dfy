/**
 The bytes on the wire and in files, spelled out: a reader written from these
 statements alone would understand what the encodings produce.
 */
module Formats {
  import opened Wrappers
  import opened Codec
  import Frames = FrameParser
  import Log = LogDuplicates
  import RrdImage
  import RrdPeers
  import Replication

  /** Integers have their least significant byte first. */
  lemma FourBytes(v: nat)
    ensures LittleEndian(4, v) ==
            [(v % 256) as byte, (v / 256 % 256) as byte, (v / 256 / 256 % 256) as byte, (v / 256 / 256 / 256 % 256) as byte]
  {
    var top := v / 256 / 256 / 256;
    assert LittleEndian(1, top) == [(top % 256) as byte] + LittleEndian(0, top / 256);
    assert LittleEndian(2, v / 256 / 256) == [(v / 256 / 256 % 256) as byte] + LittleEndian(1, v / 256 / 256 / 256);
    assert LittleEndian(3, v / 256) == [(v / 256 % 256) as byte] + LittleEndian(2, v / 256 / 256);
  }

  /** An eight-byte integer is its low half followed by its high half. */
  lemma EightBytes(low: nat, high: nat)
    requires low < 0x1_0000_0000
    ensures LittleEndian(8, high * 0x1_0000_0000 + low) == LittleEndian(4, low) + LittleEndian(4, high)
  {
    PowersOf256();
    Frames.LittleEndianSplit(4, 4, low, high);
  }

  /** Negative integers are stored as two's complement. */
  lemma IntFormat(w: nat, signed: bool, n: int)
    requires WellFormed(Int(w, signed, n))
    ensures Encode(Int(w, signed, n)) == LittleEndian(w, if n < 0 then n + Pow256(w) else n)
  {
    PowersOf256();
    hide LittleEndian;
  }

  /** The low three bits of the first byte tell how many bytes follow, its upper five are the low bits of the size. */
  lemma SizeFormat(s: nat)
    requires s < 0x2000_0000_0000_0000
    ensures var code := EncodeSize(s); var n := |code| - 1;
            && 0 <= n < 8 && code[0] as nat == n + 8 * (s % 32) && code[1..] == LittleEndian(n, s / 32)
            && (s < 32 ==> n == 0) && (32 <= s < 0x2000 ==> n == 1) && (0x2000 <= s < 0x20_0000 ==> n == 2)
  {
    PowersOf256();
    DigitsBound(s / 32, 7);
    DigitsBound(s / 32, 0);
    DigitsBound(s / 32, 1);
    DigitsBound(s / 32, 2);
    hide Digits, LittleEndian;
  }

  /** A list is its count and then its arrays one after the other, each behind its own size. */
  lemma {:induction false} ListFormat(a: seq<Bytes>, b: seq<Bytes>)
    ensures EncodeBlobs(a + b) == EncodeBlobs(a) + EncodeBlobs(b)
    ensures |a| == 1 ==> EncodeBlobs(a) == EncodeSize(|a[0]|) + a[0]
  {
    hide EncodeSize;
    if a == [] {
      assert a + b == b;
      assert EncodeBlobs(a) + EncodeBlobs(b) == EncodeBlobs(b);
    } else {
      ListFormat(a[1..], b);
      assert (a + b)[1..] == a[1..] + b;
      assert a[1..] == [] ==> EncodeBlob(a[0]) + [] == EncodeBlob(a[0]);
    }
  }

  /** A frame is its size, its id and its payload. */
  lemma FrameFormat(payload: Bytes, id: nat)
    requires |payload| < 0x1_0000_0000
    ensures Frames.EncodeFrame(payload, id) == LittleEndian(4, |payload|) + LittleEndian(4, id) + payload
  {
    hide LittleEndian;
    EightBytes(|payload|, id);
  }

  lemma KeepAliveWords()
    ensures LittleEndian(4, 0) == [0, 0, 0, 0] && LittleEndian(4, 0xffff_ffff) == [255, 255, 255, 255]
  {
    hide LittleEndian;
    FourBytes(0);
    FourBytes(0xffff_ffff);
  }

  /** A keep-alive is a frame of size 0 with the highest id. */
  lemma KeepAliveFormat()
    ensures Frames.Wire(Frames.KeepAlive) == [0, 0, 0, 0, 255, 255, 255, 255]
  {
    hide LittleEndian;
    EightBytes(0, 0xffff_ffff);
    KeepAliveWords();
    assert 0xffff_ffff * 0x1_0000_0000 + 0 == 0xffff_ffff_0000_0000;
  }

  lemma UnsignedFormat(n: nat)
    requires n < U64
    ensures Encode(Int(8, false, n)) == LittleEndian(8, n)
  {
    UnsignedFits(n);
    IntFormat(8, false, n);
  }

  /** A replication reply: the index of its last item, the items, and the server's last index. */
  lemma ReplyFormat(r: Replication.Reply)
    requires RrdPeers.Sendable(r)
    ensures EncodeAll(RrdPeers.ReplyValues(r)) ==
            LittleEndian(8, r.val) + (EncodeSize(|r.list|) + EncodeBlobs(r.list) + LittleEndian(8, r.last))
  {
    UnsignedFormat(r.val);
    UnsignedFormat(r.last);
    var vs := RrdPeers.ReplyValues(r);
    hide LittleEndian, EncodeAll, EncodeSize, EncodeBlobs;
    RrdPeers.EncodeThree(vs[0], vs[1], vs[2]);
  }

  /** A database file before compression: the last index and the slots. */
  lemma ImageFormat(i: RrdImage.Image)
    requires RrdImage.Storable(i)
    ensures EncodeAll(RrdImage.ImageValues(i)) == LittleEndian(8, i.last) + (EncodeSize(|i.ring|) + EncodeBlobs(i.ring))
  {
    UnsignedFormat(i.last);
    var vs := RrdImage.ImageValues(i);
    hide LittleEndian, EncodeAll, EncodeSize, EncodeBlobs;
    RrdImage.EncodeTwo(vs[0], vs[1]);
  }

  /** A stored message: time, type, name, text and note. */
  lemma RecordFormat(r: Log.Record)
    requires r.time < U64 && r.m.kind < 256
    ensures EncodeAll(Log.RecordValues(r)) ==
            LittleEndian(8, r.time) + ([r.m.kind as byte] +
              (EncodeBlob(r.m.name) + (EncodeBlob(r.m.text) + EncodeBlob(r.m.note))))
  {
    UnsignedFormat(r.time);
    OneByte(r.m.kind);
    var vs := Log.RecordValues(r);
    hide Encode, LittleEndian, EncodeBlob;
    assert vs[1..] == [vs[1], vs[2], vs[3], vs[4]] && vs[1..][1..] == [vs[2], vs[3], vs[4]];
    RrdPeers.EncodeThree(vs[2], vs[3], vs[4]);
    assert EncodeAll(vs[1..]) == Encode(vs[1]) + EncodeAll(vs[1..][1..]);
    BlobFormat(r.m.name);
    BlobFormat(r.m.text);
    BlobFormat(r.m.note);
  }

  lemma OneByte(n: nat)
    requires n < 256
    ensures Encode(Int(1, false, n)) == [n as byte]
  {
    assert Pow256(1) == 256;
    assert LittleEndian(1, n) == [n as byte] + LittleEndian(0, n / 256);
  }

  lemma BlobFormat(b: Bytes)
    ensures Encode(Blob(b)) == EncodeBlob(b)
    ensures EncodeBlob(b) == EncodeSize(|b|) + b
  {
    hide EncodeSize;
  }
}
