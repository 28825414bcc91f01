/**
 What a database keeps in its file: the last index and every slot of the ring,
 serialized and then compressed.
 */
module RrdImage {
  import opened Wrappers
  import opened Codec
  import opened DataStreamModel
  import opened Compression
  import opened RrdSpec

  datatype Image = Image(last: nat, ring: seq<Item>)

  function ImageValues(i: Image): seq<Value> {
    [Int(8, false, i.last), BlobList(i.ring)]
  }

  ghost predicate Storable(i: Image) {
    i.last < U64 && WellFormed(BlobList(i.ring))
  }

  /** What a reader makes of any bytes: an unreadable list leaves no slots, an unreadable index is 0. */
  function LoadImage(s: Bytes): Image {
    match Decode(IntT(8, false), s)
    case None => Image(0, [])
    case Some(Parsed(last, a)) =>
      if !(last.Int? && last.n >= 0) then Image(0, [])
      else match Decode(BlobListT, s[a..])
        case None => Image(last.n, [])
        case Some(Parsed(ring, _)) => Image(last.n, if ring.BlobList? then ring.l else [])
  }

  lemma LoadedIndexFits(s: Bytes)
    ensures LoadImage(s).last < U64
  {
    PowersOf256();
    if |s| >= 8 { FromLittleEndianBound(s[..8]); }
  }

  lemma EncodeTwo(x: Value, y: Value)
    ensures EncodeAll([x, y]) == Encode(x) + Encode(y)
  {
    hide Encode;
    assert [x, y][1..] == [y] && [y][1..] == [];
    assert EncodeAll([y]) == Encode(y);
  }

  /** A stored image is loaded as it was stored. */
  lemma ImageRoundTrip(i: Image)
    requires Storable(i)
    ensures LoadImage(EncodeAll(ImageValues(i))) == i
  {
    PowersOf256();
    var vs := ImageValues(i);
    var a, b := Encode(vs[0]), Encode(vs[1]);
    EncodeTwo(vs[0], vs[1]);
    hide Encode, Decode, EncodeAll;
    RoundTrip(vs[0], b);
    RoundTrip(vs[1], []);
    assert (a + b)[|a|..] == b == b + [];
  }

  /** A file cut short anywhere loads no slots and no index: the database over it starts empty. */
  lemma TornFileIsEmpty(z: Zip, i: Image, cut: Bytes)
    requires Faithful(z) && |EncodeAll(ImageValues(i))| < SIZE_LIMIT && cut < Compressed(z, EncodeAll(ImageValues(i)))
    ensures LoadImage(Uncompressed(z, cut)) == Image(0, [])
  {
    CutShortIsEmpty(z, EncodeAll(ImageValues(i)), cut);
  }

  method WriteImage(i: Image) returns (buf: Bytes)
    requires Storable(i)
    ensures buf == EncodeAll(ImageValues(i))
  {
    UnsignedFits(i.last);
    hide Encode, EncodeAll, WellFormed;
    var ds := new DataStream();
    ds.WriteInt(8, false, i.last);
    ds.WriteBlobList(i.ring);
    buf := ds.data;
    EncodeTwo(ImageValues(i)[0], ImageValues(i)[1]);
  }

  method ReadImage(buf: Bytes) returns (i: Image)
    requires |buf| <= INT_MAX
    ensures i == LoadImage(buf)
  {
    hide ParseSize, DecodeBlobs, FromLittleEndian;
    i := Image(0, []);
    if buf == [] { return; }
    var ds := new DataStream.Over(buf);
    assert buf[0..] == buf;
    var last := ds.ReadInt(8, false, i.last);
    var ring := ds.ReadBlobList(i.ring);
    if ds.fail { ring := []; }
    i := Image(last, ring);
  }
}
