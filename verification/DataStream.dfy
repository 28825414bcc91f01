/**
 The serialization stream: an object that appends to, or walks over, a byte
 array, with a sticky failure flag; and the header that `compress` puts in
 front of the compressed bytes.
 */
module DataStreamModel {
  import opened Wrappers
  import opened Codec

  class DataStream {
    var data: Bytes
    var fail: bool
    const read: bool
    var pos: nat

    ghost predicate Valid()
      reads this
    {
      pos <= |data| && (read ==> |data| <= INT_MAX)
    }

    constructor ()
      ensures Valid() && !read && !fail && data == [] && pos == 0
    {
      data, fail, read, pos := [], false, false, 0;
    }

    constructor Over(da: Bytes)
      requires |da| <= INT_MAX
      ensures Valid() && read && !fail && data == da && pos == 0
    {
      data, fail, read, pos := da, false, true, 0;
    }

    method W(p: Bytes)
      requires Valid()
      modifies this`data, this`fail
      ensures Valid() && fail == (old(fail) || read)
      ensures data == if fail then old(data) else old(data) + p
    {
      if fail { return; }
      if read {
        fail := true;
        return;
      }
      data := data + p;
    }

    /** Copies `size` bytes over `p`, which keeps its value when the stream fails. */
    method R(size: nat, p: Bytes) returns (q: Bytes)
      requires Valid() && |p| == size
      modifies this`pos, this`fail
      ensures Valid() && (old(fail) ==> fail)
      ensures fail ==> q == p && pos == old(pos)
      ensures !old(fail) && size > 0 ==> fail == (!read || old(pos) + size > |data|)
      ensures !old(fail) && size == 0 ==> !fail
      ensures !fail ==> pos == old(pos) + size <= |data| && q == data[old(pos)..pos]
    {
      q := p;
      if fail || size == 0 { return; }
      if !read {
        fail := true;
        return;
      }
      if pos + size > |data| {
        fail := true;
        return;
      }
      q := data[pos..pos + size];
      pos := pos + size;
    }

    method Sw(s: nat)
      requires Valid() && s < U64
      modifies this`data, this`fail
      ensures Valid() && fail == (old(fail) || read)
      ensures data == if fail then old(data) else old(data) + EncodeSize(s)
    {
      var i: nat, tmp: nat := 0, s / 32;
      while tmp > 0
        invariant i + Digits(tmp) == Digits(s / 32)
      {
        tmp := tmp / 256;
        i := i + 1;
      }
      W([HeaderByte(i, s)]);
      assert data + LittleEndian(i, s / 32) == if fail then data + LittleEndian(i, s / 32) else old(data) + EncodeSize(s);
      if fail || i == 0 { return; }
      W(LittleEndian(i, s / 32));
    }

    method Sr() returns (s: nat)
      requires Valid()
      modifies this`pos, this`fail
      ensures Valid() && (old(fail) || !read ==> fail)
      ensures !old(fail) && read ==>
                match ParseSize(old(data[pos..]))
                case Some(Parsed(n, used)) => !fail && s == n && pos == old(pos) + used
                case None => fail
    {
      s := 0;
      ghost var rest := data[pos..];
      var b := R(1, [0]);
      if fail { return; }
      assert b[0] == rest[0];
      var j, low := b[0] as nat % 8, b[0] as nat / 8;
      if j == 0 {
        s := low;
        return;
      }
      var digits := R(j, seq(j, _ => 0));
      if fail { return; }
      assert digits == rest[1..1 + j];
      s := FromLittleEndian(digits) * 32 + low;
    }

    method WriteBlob(b: Bytes)
      requires Valid() && |b| <= INT_MAX
      modifies this`data, this`fail
      ensures Valid() && fail == (old(fail) || read)
      ensures data == if fail then old(data) else old(data) + EncodeBlob(b)
    {
      Sw(|b|);
      if fail { return; }
      W(b);
    }

    method ReadBlob(v: Bytes) returns (out: Bytes)
      requires Valid()
      modifies this`pos, this`fail
      ensures Valid() && (old(fail) || !read ==> fail) && (fail ==> out == v)
      ensures !old(fail) && read ==>
                match DecodeBlob(old(data[pos..]))
                case Some(Parsed(b, used)) => !fail && out == b && pos == old(pos) + used
                case None => fail
    {
      out := v;
      ghost var start, rest := pos, data[pos..];
      var s := Sr();
      if fail { return; }
      if s > |data| - pos {
        fail := true;
        return;
      }
      ghost var used := pos - start;
      out := R(s, seq(s, _ => 0));
      assert out == rest[used..used + s];
    }

    method WriteBlobs(l: seq<Bytes>)
      requires Valid() && !fail && !read && forall i :: 0 <= i < |l| ==> |l[i]| <= INT_MAX
      modifies this`data, this`fail
      ensures Valid() && !fail && data == old(data) + EncodeBlobs(l)
    {
      hide EncodeBlob;
      assert EncodeBlobs(l[..0]) == [];
      for i := 0 to |l|
        invariant Valid() && !fail && data == old(data) + EncodeBlobs(l[..i])
      {
        WriteBlob(l[i]);
        if fail { return; }
        EncodeBlobsSnoc(l[..i], l[i]);
        assert l[..i + 1] == l[..i] + [l[i]];
        Codec.AfterFirst(old(data), EncodeBlobs(l[..i]), EncodeBlob(l[i]));
      }
      assert l[..|l|] == l;
    }

    method WriteBlobList(l: seq<Bytes>)
      requires Valid() && WellFormed(BlobList(l))
      modifies this`data, this`fail
      ensures Valid() && fail == (old(fail) || read)
      ensures data == if fail then old(data) else old(data) + Encode(BlobList(l))
    {
      hide EncodeSize, EncodeBlobs;
      Sw(|l|);
      if fail { return; }
      WriteBlobs(l);
      Codec.AfterFirst(old(data), EncodeSize(|l|), EncodeBlobs(l));
    }

    /** The loop of the list reader: every round consumes a byte or fails, whatever count was declared. */
    method ReadBlobs(count: nat) returns (l: seq<Bytes>)
      requires Valid() && !fail && read
      modifies this`pos, this`fail
      ensures Valid()
      ensures match DecodeBlobs(count, old(data[pos..]))
              case Some(Parsed(x, used)) => !fail && l == x && pos == old(pos) + used
              case None => fail
    {
      hide DecodeBlob, DecodeBlobs;
      ghost var first := pos;
      var i := 0;
      l := [];
      AfterNothing(DecodeBlobs(count, data[first..]));
      while i != count
        invariant Valid() && !fail && i <= count && |l| == i && first <= pos
        invariant DecodeBlobs(count, data[first..]) == After(l, pos - first, DecodeBlobs(count - i, data[pos..]))
        decreases |data| - pos
      {
        ghost var here := pos;
        DecodeBlobsNext(count - i, data[pos..]);
        var d := ReadBlob([]);
        if fail { return; }
        SliceTwice(data, here, pos);
        AfterAfter(l, d, here - first, pos - here, DecodeBlobs(count - i - 1, data[pos..]));
        l := l + [d];
        i := i + 1;
      }
      DecodeNone(data[pos..]);
      assert l + [] == l;
    }

    method ReadBlobList(v: seq<Bytes>) returns (out: seq<Bytes>)
      requires Valid()
      modifies this`pos, this`fail
      ensures Valid() && (old(fail) || !read ==> fail) && (fail ==> out == v)
      ensures !old(fail) && read ==>
                match Decode(BlobListT, old(data[pos..]))
                case Some(Parsed(x, used)) => !fail && BlobList(out) == x && pos == old(pos) + used
                case None => fail
    {
      hide ParseSize, DecodeBlobs;
      out := v;
      ghost var start := pos;
      var s := Sr();
      if fail { return; }
      SliceTwice(data, start, pos);
      var l := ReadBlobs(s);
      if fail { return; }
      out := l;
    }

    method WriteInt(width: nat, signed: bool, n: int)
      requires Valid() && WellFormed(Int(width, signed, n))
      modifies this`data, this`fail
      ensures Valid() && fail == (old(fail) || read)
      ensures data == if fail then old(data) else old(data) + Encode(Int(width, signed, n))
    {
      W(LittleEndian(width, n % Pow256(width)));
    }

    method ReadInt(width: nat, signed: bool, v: int) returns (out: int)
      requires Valid() && width in {1, 2, 4, 8}
      modifies this`pos, this`fail
      ensures Valid() && (old(fail) || !read ==> fail) && (fail ==> out == v && pos == old(pos))
      ensures !old(fail) && read ==>
                match Decode(IntT(width, signed), old(data[pos..]))
                case Some(Parsed(x, used)) => !fail && Int(width, signed, out) == x && pos == old(pos) + used
                case None => fail
    {
      out := v;
      ghost var rest := data[pos..];
      var raw := R(width, seq(width, _ => 0));
      if fail { return; }
      assert raw == rest[..width];
      out := FromRaw(width, signed, FromLittleEndian(raw));
    }

    method Write(v: Value)
      requires Valid() && WellFormed(v)
      modifies this`data, this`fail
      ensures Valid() && fail == (old(fail) || read)
      ensures data == if fail then old(data) else old(data) + Encode(v)
    {
      match v
      case Int(w, signed, n) => WriteInt(w, signed, n);
      case Blob(b) => WriteBlob(b);
      case BlobList(l) => WriteBlobList(l);
    }

    /** Reads a value of v's type over `v`. */
    method Read(v: Value) returns (out: Value)
      requires Valid() && WellFormed(v)
      modifies this`pos, this`fail
      ensures Valid() && (old(fail) || !read ==> fail) && (fail ==> out == v)
      ensures !old(fail) && read ==>
                match Decode(TypeOf(v), old(data[pos..]))
                case Some(Parsed(x, used)) => !fail && out == x && pos == old(pos) + used
                case None => fail
    {
      match v
      case Int(w, signed, n) =>
        var x := ReadInt(w, signed, n);
        out := Int(w, signed, x);
      case Blob(b) =>
        var x := ReadBlob(b);
        out := Blob(x);
      case BlobList(l) =>
        var x := ReadBlobList(l);
        out := BlobList(x);
    }
  }

  function After(l: seq<Bytes>, used: nat, r: Option<Parsed<seq<Bytes>>>): Option<Parsed<seq<Bytes>>> {
    match r
    case None => None
    case Some(Parsed(more, n)) => Some(Parsed(l + more, used + n))
  }

  lemma SliceTwice(s: Bytes, i: nat, j: nat)
    requires i <= j <= |s|
    ensures s[i..][j - i..] == s[j..]
  {
  }

  lemma DecodeNone(s: Bytes)
    ensures DecodeBlobs(0, s) == Some(Parsed([], 0))
  {
  }

  lemma DecodeBlobsNext(count: nat, s: Bytes)
    requires count > 0
    ensures DecodeBlobs(count, s) ==
            match DecodeBlob(s)
            case None => None
            case Some(Parsed(d, used)) => After([d], used, DecodeBlobs(count - 1, s[used..]))
  {
  }

  lemma AfterNothing(r: Option<Parsed<seq<Bytes>>>)
    ensures After([], 0, r) == r
  {
    if r.Some? { assert [] + r.value.value == r.value.value; }
  }

  lemma AfterAfter(l: seq<Bytes>, d: Bytes, used: nat, more: nat, r: Option<Parsed<seq<Bytes>>>)
    ensures After(l, used, After([d], more, r)) == After(l + [d], used + more, r)
  {
    if r.Some? { assert l + ([d] + r.value.value) == l + [d] + r.value.value; }
  }

  lemma {:induction false} EncodeBlobsSnoc(l: seq<Bytes>, b: Bytes)
    ensures EncodeBlobs(l + [b]) == EncodeBlobs(l) + EncodeBlob(b)
  {
    hide EncodeBlob;
    if l == [] {
      assert [b][1..] == [];
    } else {
      assert (l + [b])[1..] == l[1..] + [b];
      EncodeBlobsSnoc(l[1..], b);
    }
  }

  lemma {:induction false} FromLittleEndianSnoc(s: Bytes, b: byte)
    ensures FromLittleEndian(s + [b]) == FromLittleEndian(s) + b as nat * Pow256(|s|)
  {
    if s != [] {
      assert (s + [b])[1..] == s[1..] + [b];
      FromLittleEndianSnoc(s[1..], b);
    }
  }

  lemma DivIsZero(size: nat, d: nat)
    requires d > 0
    ensures size / d == 0 <==> size < d
  {
  }

  /** The header `compress` puts before the compressed bytes: the same bytes as the stream's size prefix. */
  method CompressHeader(size: nat) returns (header: Bytes)
    requires size < SIZE_LIMIT
    ensures header == EncodeSize(size)
  {
    var j: nat := 0;
    PowersOf256();
    DigitsBound(size / 32, 7);
    DigitsBound(size / 32, 0);
    DivIsZero(size, 32);
    while size / (32 * Pow256(j)) != 0
      invariant j <= Digits(size / 32) <= 7
      invariant size / (32 * Pow256(j)) == 0 <==> Digits(size / 32) <= j
      decreases 7 - j
    {
      j := j + 1;
      DigitsBound(size / 32, j);
      DivIsZero(size, 32 * Pow256(j));
    }
    header := [HeaderByte(j, size)];
    var rest: nat := size / 32;
    for i := 0 to j
      invariant header + LittleEndian(j - i, rest) == EncodeSize(size)
    {
      assert LittleEndian(j - i, rest) == [(rest % 256) as byte] + LittleEndian(j - i - 1, rest / 256);
      header := header + [(rest % 256) as byte];
      rest := rest / 256;
    }
  }

  /** `uncompress` reads the declared size back and leaves the compressed bytes as written. */
  method UncompressHeader(v: Bytes) returns (r: Option<Parsed<nat>>)
    ensures r == ParseSize(v)
  {
    if v == [] { return None; }
    var size: nat, j: nat := 0, v[0] as nat % 8;
    if j != 0 {
      if |v| < 1 + j { return None; }
      ghost var digits := v[1..1 + j];
      for i := 0 to j
        invariant size == FromLittleEndian(digits[..i])
      {
        FromLittleEndianSnoc(digits[..i], v[1 + i]);
        assert digits[..i + 1] == digits[..i] + [v[1 + i]];
        size := size + v[1 + i] as nat * Pow256(i);
      }
      assert digits[..j] == digits;
      size := size * 32;
    }
    size := size + v[0] as nat / 8;
    r := Some(Parsed(size, 1 + j));
  }
}
