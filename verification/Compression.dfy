/**
 Compressed arrays: a size prefix, the same as the serialization stream's, and
 the block a compression library makes of the bytes. The library is a
 parameter; all that is asked of it is that it undoes itself and does not take
 a block cut short for a whole one.
 */
module Compression {
  import opened Wrappers
  import opened Codec
  import opened DataStreamModel

  datatype Zip = Zip(pack: Bytes -> Bytes, unpack: Bytes -> Option<Bytes>)

  ghost predicate Faithful(z: Zip) {
    && (forall b: Bytes :: z.unpack(z.pack(b)) == Some(b))
    && (forall b: Bytes, cut: Bytes :: cut < z.pack(b) ==> z.unpack(cut) == None)
  }

  function Compressed(z: Zip, b: Bytes): Bytes {
    EncodeSize(|b|) + z.pack(b)
  }

  /** Whatever is wrong with the bytes gives the empty array. */
  function Uncompressed(z: Zip, v: Bytes): Bytes {
    match ParseSize(v)
    case None => []
    case Some(Parsed(size, used)) =>
      match z.unpack(v[used..])
      case None => []
      case Some(b) => if |b| == size then b else []
  }

  lemma CompressionRoundTrip(z: Zip, b: Bytes)
    requires Faithful(z) && |b| < SIZE_LIMIT
    ensures Uncompressed(z, Compressed(z, b)) == b
  {
    var h := EncodeSize(|b|);
    SizeRoundTrip(|b|, z.pack(b));
    hide EncodeSize, ParseSize;
    assert (h + z.pack(b))[|h|..] == z.pack(b);
  }

  /** A non-empty result is what the block unpacks to, at exactly the size declared before it; anything else reads as empty. */
  lemma UncompressedIff(z: Zip, h: Bytes, block: Bytes, size: nat, b: Bytes)
    requires ParseSize(h) == Some(Parsed(size, |h|)) && b != []
    ensures Uncompressed(z, h + block) == b <==> z.unpack(block) == Some(b) && |b| == size
  {
    ParseSizeExtends(h, block);
    hide ParseSize;
    assert (h + block)[|h|..] == block;
  }

  /** A compressed array cut short anywhere, the header included, is read as empty. */
  lemma CutShortIsEmpty(z: Zip, b: Bytes, cut: Bytes)
    requires Faithful(z) && |b| < SIZE_LIMIT && cut < Compressed(z, b)
    ensures Uncompressed(z, cut) == []
  {
    var h, block := EncodeSize(|b|), z.pack(b);
    assert cut == (h + block)[..|cut|];
    if |cut| < |h| {
      CutSizeFails(|b|, cut);
    } else {
      var k := |cut| - |h|;
      assert cut == h + block[..k];
      SizeRoundTrip(|b|, block[..k]);
      hide EncodeSize, ParseSize;
      assert cut[|h|..] == block[..k];
      assert block[..k] < block;
    }
  }

  lemma CutSizeFails(s: nat, cut: Bytes)
    requires s < SIZE_LIMIT && cut < EncodeSize(s)
    ensures ParseSize(cut) == None
  {
    SizeRoundTrip(s, []);
    assert EncodeSize(s) + [] == EncodeSize(s);
    var rest := EncodeSize(s)[|cut|..];
    assert cut + rest == EncodeSize(s);
    if ParseSize(cut).Some? { ParseSizeExtends(cut, rest); }
  }

  method Compress(z: Zip, b: Bytes) returns (c: Bytes)
    requires |b| < SIZE_LIMIT
    ensures c == Compressed(z, b)
  {
    var h := CompressHeader(|b|);
    c := h + z.pack(b);
  }

  method Uncompress(z: Zip, v: Bytes) returns (b: Bytes)
    ensures b == Uncompressed(z, v)
  {
    var header := UncompressHeader(v);
    if header.None? { return []; }
    var Parsed(size, used) := header.value;
    var u := z.unpack(v[used..]);
    if u.None? || |u.value| != size { return []; }
    b := u.value;
  }
}
