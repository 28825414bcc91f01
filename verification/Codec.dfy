/**
 The byte encoding of the serialization stream, as functions on byte sequences:
 little-endian integers, the packed size prefix, byte arrays and lists of them.
 */
module Codec {
  import opened Wrappers

  // ---- Little-endian integers ----

  function Pow256(n: nat): (p: nat)
    ensures p > 0
  {
    if n == 0 then 1 else 256 * Pow256(n - 1)
  }

  function LittleEndian(n: nat, v: nat): (s: Bytes)
    ensures |s| == n
  {
    if n == 0 then [] else [(v % 256) as byte] + LittleEndian(n - 1, v / 256)
  }

  function FromLittleEndian(s: Bytes): nat {
    if s == [] then 0 else s[0] as nat + 256 * FromLittleEndian(s[1..])
  }

  lemma {:induction false} LittleEndianRoundTrip(n: nat, v: nat)
    ensures v < Pow256(n) ==> FromLittleEndian(LittleEndian(n, v)) == v
  {
    if n > 0 {
      LittleEndianRoundTrip(n - 1, v / 256);
      assert LittleEndian(n, v)[1..] == LittleEndian(n - 1, v / 256);
    }
  }

  lemma {:induction false} FromLittleEndianBound(s: Bytes)
    ensures FromLittleEndian(s) < Pow256(|s|)
  {
    if s != [] { FromLittleEndianBound(s[1..]); }
  }

  lemma PowersOf256()
    ensures Pow256(1) == 0x100 && Pow256(2) == 0x1_0000 && Pow256(4) == 0x1_0000_0000
    ensures Pow256(7) == 0x100_0000_0000_0000 && Pow256(8) == 0x1_0000_0000_0000_0000
  {
    assert Pow256(2) == 256 * Pow256(1);
    assert Pow256(3) == 256 * Pow256(2);
    assert Pow256(4) == 256 * Pow256(3);
    assert Pow256(5) == 256 * Pow256(4);
    assert Pow256(6) == 256 * Pow256(5);
    assert Pow256(7) == 256 * Pow256(6);
  }

  // ---- The size prefix ----

  const SIZE_LIMIT := 0x2000_0000_0000_0000  // 2^61

  /** The number of base-256 digits of v. */
  function Digits(v: nat): nat {
    if v == 0 then 0 else 1 + Digits(v / 256)
  }

  /** `i | (s << 3)` truncated to a byte: for i = 8 the digit count collides with the lowest bit of s. */
  function HeaderByte(i: nat, s: nat): byte {
    (if i < 8 then i + 8 * (s % 32) else 8 * (s % 32) + (if s % 2 == 0 then 8 else 0)) as byte
  }

  function EncodeSize(s: nat): Bytes {
    [HeaderByte(Digits(s / 32), s)] + LittleEndian(Digits(s / 32), s / 32)
  }

  datatype Parsed<+T> = Parsed(value: T, used: nat)

  function ParseSize(s: Bytes): (r: Option<Parsed<nat>>)
    ensures r.Some? ==> 0 < r.value.used <= |s|
  {
    if s == [] then None
    else
      var j, low := s[0] as nat % 8, s[0] as nat / 8;
      if j == 0 then Some(Parsed(low, 1))
      else if |s| < 1 + j then None
      else Some(Parsed(FromLittleEndian(s[1..1 + j]) * 32 + low, 1 + j))
  }

  lemma {:induction false} DigitsBound(v: nat, n: nat)
    ensures Digits(v) <= n <==> v < Pow256(n)
  {
    if v > 0 && n > 0 { DigitsBound(v / 256, n - 1); }
  }

  lemma HeaderParts(i: nat, s: nat)
    requires i <= 8
    ensures i < 8 ==> HeaderByte(i, s) as nat % 8 == i && HeaderByte(i, s) as nat / 8 == s % 32
    ensures HeaderByte(8, s) as nat % 8 == 0 && HeaderByte(8, s) as nat / 8 == s % 32 / 2 * 2 + 1
  {
    var low := s % 32;
    assert s % 2 == low % 2;
  }

  /** What a parse makes of a header byte followed by digits. */
  lemma ParseHeader(h: byte, digits: Bytes, rest: Bytes)
    requires h as nat % 8 in {0, |digits|}
    ensures var v := [h] + digits + rest;
            ParseSize(v) == if h as nat % 8 == 0 then Some(Parsed(h as nat / 8, 1))
                            else Some(Parsed(FromLittleEndian(digits) * 32 + h as nat / 8, 1 + |digits|))
  {
    var v := [h] + digits + rest;
    if h as nat % 8 != 0 { assert v[1..1 + |digits|] == digits; }
  }

  lemma SmallSizeRoundTrip(s: nat, rest: Bytes)
    requires s < SIZE_LIMIT
    ensures ParseSize(EncodeSize(s) + rest) == Some(Parsed(s, |EncodeSize(s)|))
  {
    var n := Digits(s / 32);
    PowersOf256();
    DigitsBound(s / 32, 7);
    DigitsBound(s / 32, n);
    LittleEndianRoundTrip(n, s / 32);
    HeaderParts(n, s);
    assert n == 0 ==> s / 32 == 0;
    hide Digits, LittleEndian, FromLittleEndian, HeaderByte, ParseSize;
    ParseHeader(HeaderByte(n, s), LittleEndian(n, s / 32), rest);
  }

  lemma BigSizeCollides(s: nat, rest: Bytes)
    requires SIZE_LIMIT <= s < U64
    ensures ParseSize(EncodeSize(s) + rest) == Some(Parsed(s % 32 / 2 * 2 + 1, 1))
  {
    PowersOf256();
    DigitsBound(s / 32, 7);
    DigitsBound(s / 32, 8);
    HeaderParts(8, s);
    hide Digits, LittleEndian, FromLittleEndian, HeaderByte, ParseSize;
    ParseHeader(HeaderByte(8, s), LittleEndian(8, s / 32), rest);
  }

  /** Reading back a written size gives the size exactly when it is below 2^61, whatever follows it. */
  lemma SizeRoundTrip(s: nat, rest: Bytes)
    requires s < U64
    ensures ParseSize(EncodeSize(s) + rest) == Some(Parsed(s, |EncodeSize(s)|)) <==> s < SIZE_LIMIT
  {
    if s < SIZE_LIMIT { SmallSizeRoundTrip(s, rest); } else { BigSizeCollides(s, rest); }
  }

  /** The prefix uses the least number n of extra bytes for which s < 2^(5 + 8n). */
  lemma SizeIsShortest(s: nat, n: nat)
    requires s < SIZE_LIMIT
    ensures |EncodeSize(s)| <= 1 + n <==> s < 32 * Pow256(n)
  {
    DigitsBound(s / 32, n);
  }

  /** A longer input does not change what a successful parse found. */
  lemma ParseSizeExtends(s: Bytes, rest: Bytes)
    requires ParseSize(s).Some?
    ensures ParseSize(s + rest) == ParseSize(s)
  {
    SliceExtends(s, rest, 1, 1 + s[0] as nat % 8);
  }

  /** No encoding of a size is a proper prefix of another's. */
  lemma SizesArePrefixFree(a: nat, b: nat)
    requires a < SIZE_LIMIT && b < SIZE_LIMIT && EncodeSize(a) <= EncodeSize(b)
    ensures a == b
  {
    var rest := EncodeSize(b)[|EncodeSize(a)|..];
    assert EncodeSize(b) == EncodeSize(a) + rest == EncodeSize(b) + [];
    SizeRoundTrip(a, rest);
    SizeRoundTrip(b, []);
  }

  // ---- Typed values ----

  datatype Type = IntT(width: nat, signed: bool) | BlobT | BlobListT

  /** An integer of 1, 2, 4 or 8 bytes; a byte array or string; a list of byte arrays. */
  datatype Value = Int(width: nat, signed: bool, n: int) | Blob(b: Bytes) | BlobList(l: seq<Bytes>)

  const INT_MAX := 0x7fff_ffff

  function TypeOf(v: Value): Type {
    match v
    case Int(w, signed, _) => IntT(w, signed)
    case Blob(_) => BlobT
    case BlobList(_) => BlobListT
  }

  ghost predicate WellFormed(v: Value) {
    match v
    case Int(w, signed, n) =>
      && w in {1, 2, 4, 8}
      && if signed then -1 * Pow256(w) / 2 <= n < Pow256(w) / 2 else 0 <= n < Pow256(w)
    case Blob(b) => |b| <= INT_MAX
    case BlobList(l) => |l| < SIZE_LIMIT && forall i :: 0 <= i < |l| ==> |l[i]| <= INT_MAX
  }

  lemma UnsignedFits(n: nat)
    requires n < U64
    ensures WellFormed(Int(8, false, n))
  {
    PowersOf256();
  }

  /** Two's complement. */
  function FromRaw(w: nat, signed: bool, raw: nat): int {
    if signed && raw >= Pow256(w) / 2 then raw - Pow256(w) else raw
  }

  function EncodeBlob(b: Bytes): Bytes {
    EncodeSize(|b|) + b
  }

  function EncodeBlobs(l: seq<Bytes>): Bytes {
    if l == [] then [] else EncodeBlob(l[0]) + EncodeBlobs(l[1..])
  }

  function Encode(v: Value): Bytes {
    match v
    case Int(w, signed, n) => LittleEndian(w, n % Pow256(w))
    case Blob(b) => EncodeBlob(b)
    case BlobList(l) => EncodeSize(|l|) + EncodeBlobs(l)
  }

  function DecodeBlob(s: Bytes): (r: Option<Parsed<Bytes>>)
    ensures r.Some? ==> 0 < r.value.used <= |s|
  {
    match ParseSize(s)
    case None => None
    case Some(Parsed(n, used)) =>
      if n > |s| - used then None else Some(Parsed(s[used..used + n], used + n))
  }

  function DecodeBlobs(count: nat, s: Bytes): (r: Option<Parsed<seq<Bytes>>>)
    ensures r.Some? ==> r.value.used <= |s| && |r.value.value| == count
  {
    if count == 0 then Some(Parsed([], 0))
    else match DecodeBlob(s)
      case None => None
      case Some(Parsed(b, used)) =>
        match DecodeBlobs(count - 1, s[used..])
        case None => None
        case Some(Parsed(l, more)) => Some(Parsed([b] + l, used + more))
  }

  function Decode(t: Type, s: Bytes): (r: Option<Parsed<Value>>)
    ensures r.Some? ==> r.value.used <= |s|
  {
    match t
    case IntT(w, signed) =>
      if |s| < w then None
      else Some(Parsed(Int(w, signed, FromRaw(w, signed, FromLittleEndian(s[..w]))), w))
    case BlobT =>
      (match DecodeBlob(s)
       case None => None
       case Some(Parsed(b, used)) => Some(Parsed(Blob(b), used)))
    case BlobListT =>
      match ParseSize(s)
      case None => None
      case Some(Parsed(count, used)) =>
        match DecodeBlobs(count, s[used..])
        case None => None
        case Some(Parsed(l, more)) => Some(Parsed(BlobList(l), used + more))
  }

  lemma BlobRoundTrip(b: Bytes, rest: Bytes)
    requires |b| < SIZE_LIMIT
    ensures DecodeBlob(EncodeBlob(b) + rest) == Some(Parsed(b, |EncodeBlob(b)|))
  {
    var p := EncodeSize(|b|);
    assert EncodeBlob(b) + rest == p + (b + rest);
    SizeRoundTrip(|b|, b + rest);
    assert (p + (b + rest))[|p|..|p| + |b|] == b;
  }

  lemma DecodeBlobsCons(count: nat, t: Bytes, b: Bytes, used: nat, l: seq<Bytes>, more: nat)
    requires count > 0 && 0 < used <= |t|
    requires DecodeBlob(t) == Some(Parsed(b, used))
    requires DecodeBlobs(count - 1, t[used..]) == Some(Parsed(l, more))
    ensures DecodeBlobs(count, t) == Some(Parsed([b] + l, used + more))
  {
  }

  lemma BlobsStep(l: seq<Bytes>, first: Bytes, tail: Bytes, rest: Bytes)
    requires l != [] && first != []
    requires DecodeBlob(first + (tail + rest)) == Some(Parsed(l[0], |first|))
    requires DecodeBlobs(|l| - 1, tail + rest) == Some(Parsed(l[1..], |tail|))
    ensures DecodeBlobs(|l|, (first + tail) + rest) == Some(Parsed(l, |first| + |tail|))
  {
    hide DecodeBlob, DecodeBlobs;
    AfterFirst(first, tail, rest);
    DecodeBlobsCons(|l|, first + (tail + rest), l[0], |first|, l[1..], |tail|);
    assert [l[0]] + l[1..] == l;
  }

  lemma EncodeBlobsCons(l: seq<Bytes>)
    requires l != []
    ensures EncodeBlobs(l) == EncodeBlob(l[0]) + EncodeBlobs(l[1..]) && EncodeBlob(l[0]) != []
  {
  }

  lemma {:induction false} BlobsRoundTrip(l: seq<Bytes>, rest: Bytes)
    requires forall b :: b in l ==> |b| < SIZE_LIMIT
    ensures DecodeBlobs(|l|, EncodeBlobs(l) + rest) == Some(Parsed(l, |EncodeBlobs(l)|))
  {
    hide EncodeBlob, EncodeBlobs, DecodeBlob, DecodeBlobs;
    if l == [] {
      NoBlobs(rest);
    } else {
      BlobRoundTrip(l[0], EncodeBlobs(l[1..]) + rest);
      BlobsRoundTrip(l[1..], rest);
      BlobsCons(l, rest);
    }
  }

  lemma NoBlobs(rest: Bytes)
    ensures DecodeBlobs(0, EncodeBlobs([]) + rest) == Some(Parsed([], |EncodeBlobs([])|))
  {
  }

  lemma BlobsCons(l: seq<Bytes>, rest: Bytes)
    requires l != []
    requires DecodeBlob(EncodeBlob(l[0]) + (EncodeBlobs(l[1..]) + rest)) == Some(Parsed(l[0], |EncodeBlob(l[0])|))
    requires DecodeBlobs(|l| - 1, EncodeBlobs(l[1..]) + rest) == Some(Parsed(l[1..], |EncodeBlobs(l[1..])|))
    ensures DecodeBlobs(|l|, EncodeBlobs(l) + rest) == Some(Parsed(l, |EncodeBlobs(l)|))
  {
    hide EncodeBlob, EncodeBlobs, DecodeBlob, DecodeBlobs;
    EncodeBlobsCons(l);
    BlobsStep(l, EncodeBlob(l[0]), EncodeBlobs(l[1..]), rest);
  }

  lemma AfterFirst(a: Bytes, b: Bytes, c: Bytes)
    ensures (a + b) + c == a + (b + c)
    ensures (a + (b + c))[|a|..] == b + c
  {
  }

  lemma FromRawRoundTrip(w: nat, signed: bool, n: int)
    requires WellFormed(Int(w, signed, n))
    ensures FromRaw(w, signed, n % Pow256(w)) == n
  {
    PowersOf256();
    assert n < 0 ==> n % Pow256(w) == n + Pow256(w);
  }

  lemma IntRoundTrip(w: nat, signed: bool, n: int, rest: Bytes)
    requires WellFormed(Int(w, signed, n))
    ensures Decode(IntT(w, signed), Encode(Int(w, signed, n)) + rest) == Some(Parsed(Int(w, signed, n), w))
  {
    var raw, e := n % Pow256(w), Encode(Int(w, signed, n));
    LittleEndianRoundTrip(w, raw);
    FromRawRoundTrip(w, signed, n);
    hide LittleEndian, FromLittleEndian, FromRaw, Pow256;
    assert (e + rest)[..w] == e;
  }

  lemma BlobListRoundTrip(l: seq<Bytes>, rest: Bytes)
    requires WellFormed(BlobList(l))
    ensures Decode(BlobListT, Encode(BlobList(l)) + rest) == Some(Parsed(BlobList(l), |Encode(BlobList(l))|))
  {
    hide ParseSize, EncodeSize, DecodeBlobs, EncodeBlobs;
    AfterFirst(EncodeSize(|l|), EncodeBlobs(l), rest);
    SizeRoundTrip(|l|, EncodeBlobs(l) + rest);
    BlobsRoundTrip(l, rest);
  }

  /** Every value is read back as written and exactly its own bytes are used, whatever follows. */
  lemma RoundTrip(v: Value, rest: Bytes)
    requires WellFormed(v)
    ensures Decode(TypeOf(v), Encode(v) + rest) == Some(Parsed(v, |Encode(v)|))
  {
    match v
    case Int(w, signed, n) => IntRoundTrip(w, signed, n, rest);
    case Blob(b) => BlobRoundTrip(b, rest);
    case BlobList(l) => BlobListRoundTrip(l, rest);
  }

  lemma SliceExtends(s: Bytes, rest: Bytes, i: nat, j: nat)
    requires i <= j <= |s|
    ensures (s + rest)[i..j] == s[i..j] && (s + rest)[i..] == s[i..] + rest
  {
  }

  lemma DecodeBlobExtends(s: Bytes, rest: Bytes)
    requires DecodeBlob(s).Some?
    ensures DecodeBlob(s + rest) == DecodeBlob(s)
  {
    hide ParseSize;
    ParseSizeExtends(s, rest);
    var Parsed(n, used) := ParseSize(s).value;
    SliceExtends(s, rest, used, used + n);
  }

  lemma {:induction false} DecodeBlobsExtends(count: nat, s: Bytes, rest: Bytes)
    requires DecodeBlobs(count, s).Some?
    ensures DecodeBlobs(count, s + rest) == DecodeBlobs(count, s)
  {
    hide DecodeBlob;
    if count > 0 {
      DecodeBlobExtends(s, rest);
      var used := DecodeBlob(s).value.used;
      SliceExtends(s, rest, used, used);
      DecodeBlobsExtends(count - 1, s[used..], rest);
    }
  }

  lemma DecodeExtends(t: Type, s: Bytes, rest: Bytes)
    requires Decode(t, s).Some?
    ensures Decode(t, s + rest) == Decode(t, s)
  {
    hide ParseSize, DecodeBlob, DecodeBlobs;
    match t
    case IntT(w, _) =>
      SliceExtends(s, rest, 0, w);
    case BlobT =>
      DecodeBlobExtends(s, rest);
    case BlobListT =>
      ParseSizeExtends(s, rest);
      var Parsed(count, used) := ParseSize(s).value;
      SliceExtends(s, rest, used, used);
      DecodeBlobsExtends(count, s[used..], rest);
  }

  /** A proper prefix of a value's encoding never decodes. */
  lemma ProperPrefixFails(v: Value, p: Bytes)
    requires WellFormed(v) && p < Encode(v)
    ensures Decode(TypeOf(v), p) == None
  {
    var rest := Encode(v)[|p|..];
    assert p + rest == Encode(v) == Encode(v) + [];
    RoundTrip(v, []);
    if Decode(TypeOf(v), p).Some? {
      DecodeExtends(TypeOf(v), p, rest);
      assert false;
    }
  }

  // ---- Sequences of values ----

  function EncodeAll(vs: seq<Value>): Bytes {
    if vs == [] then [] else Encode(vs[0]) + EncodeAll(vs[1..])
  }

  function DecodeAll(ts: seq<Type>, s: Bytes): Option<Parsed<seq<Value>>> {
    if ts == [] then Some(Parsed([], 0))
    else match Decode(ts[0], s)
      case None => None
      case Some(Parsed(v, used)) =>
        match DecodeAll(ts[1..], s[used..])
        case None => None
        case Some(Parsed(vs, more)) => Some(Parsed([v] + vs, used + more))
  }

  /** Values already read, with those still to come behind them. */
  function Prepend(vs: seq<Value>, used: nat, r: Option<Parsed<seq<Value>>>): Option<Parsed<seq<Value>>> {
    match r
    case None => None
    case Some(Parsed(more, n)) => Some(Parsed(vs + more, used + n))
  }

  lemma DecodeNext(vs: seq<Value>, pos: nat, t: Type, ts: seq<Type>, s: Bytes)
    requires pos <= |s|
    ensures Prepend(vs, pos, DecodeAll([t] + ts, s[pos..])) ==
            match Decode(t, s[pos..])
            case None => None
            case Some(Parsed(v, used)) => Prepend(vs + [v], pos + used, DecodeAll(ts, s[pos + used..]))
  {
    hide Decode;
    assert ([t] + ts)[1..] == ts;
    if Decode(t, s[pos..]).Some? {
      var Parsed(v, used) := Decode(t, s[pos..]).value;
      assert s[pos..][used..] == s[pos + used..];
      var r := DecodeAll(ts, s[pos + used..]);
      if r.Some? { assert vs + ([v] + r.value.value) == vs + [v] + r.value.value; }
    }
  }

  function TypesOf(vs: seq<Value>): seq<Type> {
    seq(|vs|, i requires 0 <= i < |vs| => TypeOf(vs[i]))
  }

  /** A whole sequence of writes is read back by the same sequence of reads, to the last byte. */
  lemma {:induction false} RoundTripAll(vs: seq<Value>)
    requires forall v :: v in vs ==> WellFormed(v)
    ensures DecodeAll(TypesOf(vs), EncodeAll(vs)) == Some(Parsed(vs, |EncodeAll(vs)|))
  {
    hide Decode, Encode, WellFormed;
    if vs != [] {
      RoundTrip(vs[0], EncodeAll(vs[1..]));
      RoundTripAll(vs[1..]);
      assert TypesOf(vs)[1..] == TypesOf(vs[1..]);
      assert EncodeAll(vs)[|Encode(vs[0])|..] == EncodeAll(vs[1..]);
      assert [vs[0]] + vs[1..] == vs;
    }
  }
}
