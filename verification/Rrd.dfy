/**
 The round-robin database: a ring of `dbSize` slots addressed by absolute
 64-bit indices.

 The abstract value of a database is a history: the item stored under every
 absolute index from 0 to the last one. The ring keeps only a window of it.
 Index 0 is never written, so a fresh database is the history with one empty
 item.
 */
module RrdSpec {
  import opened Wrappers

  type Item = Bytes
  type History = h: seq<Item> | |h| > 0 && h[0] == [] witness [[]]

  const EMPTY: History := [[]]

  function Last(h: History): nat { |h| - 1 }

  function Min(a: nat, b: nat): nat { if a < b then a else b }

  /** The index an append lands on; index 0 means "the current time", or "the next one" without an interval. */
  function Position(index: nat, now: nat, interval: nat, last: nat): (pos: nat)
    requires index < U64 && now < U64
    ensures pos < U64
  {
    if index != 0 then index else if interval != 0 then now / interval else (1 + last) % U64
  }

  /** What the skipped indices between the last one and `pos` become. */
  function GapItem(h: History, data: Item, pos: nat, dbSize: nat, fill: nat): Item
    requires pos > Last(h)
  {
    if Min(pos - Last(h), dbSize) <= fill then data else []
  }

  /** An append at `pos`: ignored unless `pos` is new. */
  function Appended(h: History, data: Item, pos: nat, dbSize: nat, fill: nat): History {
    if pos <= Last(h) then h
    else h + seq(pos - |h|, _ => GapItem(h, data, pos, dbSize, fill)) + [data]
  }

  function Slot(k: nat, dbSize: nat): (i: nat)
    requires dbSize > 0
    ensures i < dbSize && i <= k
  {
    k % dbSize
  }

  /** The ring shows history `h`: every index in the window finds its item in its slot. */
  ghost predicate Refines(ring: seq<Item>, h: History) {
    |ring| > 0 &&
    forall k: nat :: k < |h| && |h| - |ring| <= k ==> ring[Slot(k, |ring|)] == h[k]
  }

  /** Slots no index has reached are empty. */
  ghost predicate Unused(ring: seq<Item>, last: nat) {
    forall i :: last < i < |ring| ==> ring[i] == []
  }

  /** The ring and its last index are those of history h. */
  ghost predicate Shows(ring: seq<Item>, last: nat, h: History) {
    last == Last(h) && (|ring| > 0 ==> Refines(ring, h) && Unused(ring, last))
  }

  ghost predicate HoldsAt(ring: seq<Item>, k: nat, item: Item) {
    ring != [] && ring[k % |ring|] == item
  }

  ghost predicate SameAt(ring: seq<Item>, was: seq<Item>, k: nat) {
    |ring| == |was| > 0 && ring[k % |ring|] == was[k % |ring|]
  }

  /**
   What an append at `pos`, above the last index, does to the slots: the new item is in its own; a skipped
   index of the window has a copy of it when no more than `fill` indices (or the whole ring) were passed,
   and the empty item otherwise; every other slot is as it was.
   */
  ghost predicate Stored(was: seq<Item>, ring: seq<Item>, last: nat, pos: nat, data: Item, fill: nat) {
    var gap := if pos - last <= fill || |ring| <= fill then data else [];
    && |ring| == |was|
    && HoldsAt(ring, pos, data)
    && (forall k: nat :: last < k < pos < k + |ring| ==> HoldsAt(ring, k, gap))
    && (forall k: nat :: k <= last < pos < k + |ring| ==> SameAt(ring, was, k))
    && (forall i :: pos < i < |ring| ==> ring[i] == was[i])
  }

  function NonEmpty(ring: seq<Item>): (n: nat)
    ensures n <= |ring|
  {
    if ring == [] then 0 else NonEmpty(ring[..|ring| - 1]) + if ring[|ring| - 1] != [] then 1 else 0
  }

  lemma {:induction false} NonEmptyBelow(ring: seq<Item>, last: nat)
    requires ring != [] && ring[0] == [] && Unused(ring, last)
    ensures NonEmpty(ring) <= last
  {
    var n := |ring| - 1;
    if n > 0 { NonEmptyBelow(ring[..n], if n <= last then n - 1 else last); }
  }

  /** The slots in use are no more than the indices stored. */
  lemma NonEmptyFits(ring: seq<Item>, last: nat, h: History)
    requires Shows(ring, last, h)
    ensures NonEmpty(ring) <= last
  {
    if 0 < |ring| && last < |ring| {
      assert Slot(0, |ring|) == 0;
      NonEmptyBelow(ring, last);
    }
  }

  /** The item a read labels k: at the lower edge the slot already holds the newest item. */
  function WindowItem(h: History, dbSize: nat, k: nat): Item
    requires k <= Last(h)
  {
    if k + dbSize == Last(h) then h[Last(h)] else h[k]
  }

  datatype ReadResult = ReadResult(list: seq<Item>, ret: nat, last: nat)

  function ReadStart(h: History, dbSize: nat, val: nat): (start: nat)
    requires dbSize > 0 && val <= Last(h)
    ensures start <= Last(h) && start + dbSize >= Last(h)
  {
    if Last(h) - val > dbSize then 1 + Last(h) - dbSize else val
  }

  function ReadCount(h: History, dbSize: nat, val: nat, size: nat): (n: nat)
    requires dbSize > 0 && val <= Last(h)
    ensures n >= 1 && ReadStart(h, dbSize, val) + n <= |h|
  {
    Min(if size == 0 then dbSize else size, |h| - ReadStart(h, dbSize, val))
  }

  function ReadSpec(h: History, dbSize: nat, val: nat, size: nat): ReadResult
    requires dbSize > 0
  {
    if val > Last(h) then ReadResult([], Last(h), Last(h))
    else
      var start, n := ReadStart(h, dbSize, val), ReadCount(h, dbSize, val, size);
      ReadResult(seq(n, j requires 0 <= j < n => WindowItem(h, dbSize, start + j)), start + n - 1, Last(h))
  }

  /** An append reports a finished bucket when it enters a later one (unsigned 64-bit arithmetic). */
  predicate AverageFires(pos: nat, last: nat, aInterval: nat, aOffset: nat) {
    aInterval > 0 && (Bucket((pos + aOffset) % U64, aInterval) - Bucket((last + aOffset) % U64, aInterval)) % U64 > 0
  }

  function AverageList(h: History, dbSize: nat, pos: nat, aInterval: nat): seq<Item>
    requires dbSize > 0 && aInterval > 0
  {
    ReadSpec(h, dbSize, (pos - pos % aInterval - aInterval) % U64, aInterval).list
  }

  // ---- Remainders ----

  lemma ModPred(k: nat, n: nat)
    requires n > 0 && k > 0
    ensures (k - 1) % n == if k % n == 0 then n - 1 else k % n - 1
  {
    var q := k / n;
    if k % n == 0 {
      assert k == n * q && q >= 1;
      assert k - 1 == n * (q - 1) + (n - 1);
      DivModUnique(k - 1, n, q - 1, n - 1);
    } else {
      assert k - 1 == n * q + (k % n - 1);
      DivModUnique(k - 1, n, q, k % n - 1);
    }
  }

  lemma MulLe(x: int, y: int, n: nat)
    requires x <= y
    ensures x * n <= y * n
  {
  }

  /** The bucket of n consecutive indices that index k falls in. */
  function Bucket(k: nat, n: nat): (b: nat)
    requires n > 0
    ensures b * n <= k < (b + 1) * n
    ensures k - k % n == b * n
  {
    k / n
  }

  lemma BucketMono(a: nat, b: nat, n: nat)
    requires n > 0 && a <= b
    ensures Bucket(a, n) <= Bucket(b, n)
  {
    if Bucket(b, n) + 1 <= Bucket(a, n) {
      MulLe(Bucket(b, n) + 1, Bucket(a, n), n);
      assert false;
    }
  }

  lemma BucketAbove(b: nat, k: nat, n: nat)
    requires n > 0
    ensures b <= Bucket(k, n) <==> b * n <= k
  {
    if b <= Bucket(k, n) { MulLe(b, Bucket(k, n), n); } else { MulLe(Bucket(k, n) + 1, b, n); }
  }

  lemma MulApart(n: nat, d: int)
    ensures d >= 1 ==> n * d >= n
    ensures d <= -1 ==> n * d <= -1 * n
  {
  }

  lemma DivModUnique(k: nat, n: nat, q: int, r: nat)
    requires n > 0 && k == n * q + r && r < n
    ensures k / n == q && k % n == r
  {
    assert n * (k / n - q) == r - k % n;
    MulApart(n, k / n - q);
  }

  lemma SlotSucc(k: nat, n: nat)
    requires n > 0
    ensures Slot(k + 1, n) == if Slot(k, n) + 1 == n then 0 else Slot(k, n) + 1
  {
    ModPred(k + 1, n);
  }

  /** Indices less than n apart occupy different slots. */
  lemma SlotsDistinct(p: nat, n: nat)
    requires n > 0
    ensures forall k: nat :: p - n < k < p + n && k != p ==> Slot(k, n) != Slot(p, n)
  {
    forall k: nat | p - n < k < p + n && k != p
      ensures Slot(k, n) != Slot(p, n)
    {
      assert k - p == n * (k / n - p / n) + (k % n - p % n);
      MulApart(n, k / n - p / n);
    }
  }

  lemma SlotShift(k: nat, n: nat)
    requires n > 0
    ensures Slot(k + n, n) == Slot(k, n)
  {
    DivModUnique(k + n, n, k / n + 1, k % n);
  }

  /** What a slot of the ring holds, seen from an index of the window or the one just below it. */
  lemma SlotShowsWindow(ring: seq<Item>, h: History, k: nat)
    requires Refines(ring, h) && k <= Last(h) <= k + |ring|
    ensures ring[Slot(k, |ring|)] == WindowItem(h, |ring|, k)
  {
    if k + |ring| == Last(h) { SlotShift(k, |ring|); }
  }

  lemma ReadAhead(h: History, dbSize: nat, val: nat, size: nat)
    requires dbSize > 0 && val > Last(h)
    ensures ReadSpec(h, dbSize, val, size) == ReadResult([], Last(h), Last(h))
  {
  }

  lemma ReadCollects(h: History, dbSize: nat, val: nat, size: nat, list: seq<Item>)
    requires dbSize > 0 && val <= Last(h) && |list| == ReadCount(h, dbSize, val, size)
    requires forall j :: 0 <= j < |list| ==> list[j] == WindowItem(h, dbSize, ReadStart(h, dbSize, val) + j)
    ensures ReadSpec(h, dbSize, val, size) == ReadResult(list, ReadStart(h, dbSize, val) + |list| - 1, Last(h))
  {
    assert ReadSpec(h, dbSize, val, size).list == list;
  }

  /** A history that a given ring and last index can be those of: what the window's slots say, and nothing before. */
  function HistoryOf(ring: seq<Item>, last: nat): History
    requires ring != []
  {
    seq(last + 1, k requires 0 <= k <= last => if k > 0 && last < k + |ring| then ring[Slot(k, |ring|)] else [])
  }

  /** Any slots belong to some history exactly when the last index has passed them all or none beyond it is in use. */
  lemma HistoryExistsIff(ring: seq<Item>, last: nat)
    requires ring != []
    ensures (exists h: History :: Shows(ring, last, h)) <==> last >= |ring| || (ring[0] == [] && Unused(ring, last))
  {
    SlotOfZero(|ring|);
    if last >= |ring| || (ring[0] == [] && Unused(ring, last)) {
      var h := HistoryOf(ring, last);
      assert Shows(ring, last, h);
    }
    forall h: History | Shows(ring, last, h)
      ensures last >= |ring| || (ring[0] == [] && Unused(ring, last))
    {
      if last < |ring| { assert ring[Slot(0, |ring|)] == h[0]; }
    }
  }

  lemma SlotOfZero(n: nat)
    requires n > 0
    ensures Slot(0, n) == 0
  {
  }

  lemma {:induction false} AllEmpty(ring: seq<Item>)
    requires forall i :: 0 <= i < |ring| ==> ring[i] == []
    ensures NonEmpty(ring) == 0
  {
    if ring != [] { AllEmpty(ring[..|ring| - 1]); }
  }

  // ---- Properties of the specification ----

  /**
   Where an append lands: on the index given; without one on the interval the clock is in, or on the next
   index when there are no intervals. The index after the highest wraps to 0, where nothing is stored.
   */
  lemma AppendLands(index: nat, now: nat, interval: nat, last: nat)
    requires index < U64 && now < U64 && last < U64
    ensures var pos := Position(index, now, interval, last);
            && (index > 0 ==> pos == index)
            && (index == 0 && interval > 0 ==> pos * interval <= now < (pos + 1) * interval)
            && (index == 0 && interval == 0 ==> pos == if last + 1 < 0x1_0000_0000_0000_0000 then last + 1 else 0)
  {
    if interval > 0 { assert Bucket(now, interval) == now / interval; }
  }

  lemma AppendedAt(h: History, data: Item, pos: nat, dbSize: nat, fill: nat)
    requires pos > Last(h)
    ensures var d := Appended(h, data, pos, dbSize, fill);
            && |d| == pos + 1 && d[pos] == data && d[..|h|] == h
            && (forall k :: Last(h) < k < pos ==> d[k] == if Min(pos - Last(h), dbSize) <= fill then data else [])
  {
  }

  lemma AppendedAtLast(h: History, d: History)
    requires |h| <= |d| && d[..|h|] == h
    ensures forall k :: 0 <= k < |h| ==> d[k] == h[k]
  {
    assert forall k :: 0 <= k < |h| ==> d[..|h|][k] == d[k];
  }

  lemma AppendedIsStored(was: seq<Item>, ring: seq<Item>, h: History, data: Item, pos: nat, fill: nat)
    requires Refines(was, h) && |ring| == |was| && pos > Last(h)
    requires Refines(ring, Appended(h, data, pos, |ring|, fill))
    requires forall i :: pos < i < |ring| ==> ring[i] == was[i]
    ensures Stored(was, ring, Last(h), pos, data, fill)
  {
    var d := Appended(h, data, pos, |ring|, fill);
    assert d[pos] == data && ring[Slot(pos, |ring|)] == d[pos];
    forall k: nat | Last(h) < k < pos < k + |ring|
      ensures HoldsAt(ring, k, GapItem(h, data, pos, |ring|, fill))
    {
      assert d[k] == GapItem(h, data, pos, |ring|, fill) && ring[Slot(k, |ring|)] == d[k];
    }
    forall k: nat | k <= Last(h) && pos < k + |ring|
      ensures SameAt(ring, was, k)
    {
      assert d[k] == h[k] && ring[Slot(k, |ring|)] == d[k] && was[Slot(k, |ring|)] == h[k];
    }
  }

  /** `read` returns the true items from `start` on exactly when it was not asked for the index just below the window. */
  lemma ReadIsExact(h: History, dbSize: nat, val: nat, size: nat)
    requires dbSize > 0 && val <= Last(h)
    ensures var r := ReadSpec(h, dbSize, val, size);
            var start := ReadStart(h, dbSize, val);
            && (r.list == h[start..r.ret + 1] <==> val + dbSize != Last(h) || h[val] == h[Last(h)])
            && (val + dbSize != Last(h) ==> start == if val + dbSize <= Last(h) then 1 + Last(h) - dbSize else val)
            && (size > 0 ==> |r.list| <= size)
            && (r.ret == Last(h) || |r.list| == if size == 0 then dbSize else size)
  {
    var r := ReadSpec(h, dbSize, val, size);
    var start := ReadStart(h, dbSize, val);
    assert r.list[0] == WindowItem(h, dbSize, start);
    assert h[start..r.ret + 1][0] == h[start];
    if val + dbSize != Last(h) || h[val] == h[Last(h)] {
      forall j | 0 <= j < |r.list|
        ensures r.list[j] == h[start..r.ret + 1][j]
      {
        assert r.list[j] == WindowItem(h, dbSize, start + j);
      }
      assert r.list == h[start..r.ret + 1];
    }
  }
}

module RrdModel {
  import opened Wrappers
  import opened Codec
  import opened Compression
  import opened RrdSpec
  import opened RrdImage

  class Rrd {
    const dbSize: nat
    const interval: nat
    const fill: nat
    var last: nat
    var count: nat
    const dataBase: array<Item>
    var aInterval: nat
    var aOffset: nat
    ghost var history: History

    ghost predicate Valid()
      reads this, dataBase
    {
      && dataBase.Length == dbSize
      && last < U64
      && count <= dbSize && count <= last
      && Shows(dataBase[..], last, history)
    }

    constructor (size: nat, interval: nat, fillInterval: nat)
      ensures Valid() && fresh(dataBase)
      ensures dbSize == size && this.interval == interval
      ensures fill == if interval != 0 then fillInterval / interval else 0
      ensures history == EMPTY && count == 0 && aInterval == 0
    {
      dbSize := size;
      this.interval := interval;
      fill := if interval != 0 then fillInterval / interval else 0;
      last, count := 0, 0;
      dataBase := new Item[size](_ => []);
      aInterval, aOffset := 0, 0;
      history := EMPTY;
    }

    /**
     Opens a database over the bytes of a file. A size of 0 takes the size from the file. A file of another
     size counts as unreadable: the database starts empty. Contents that are those of a history `h` give a
     database with that history; any others of the right size are accepted as they are.
     */
    constructor FromFile(z: Zip, size: nat, interval: nat, fillInterval: nat, file: Bytes, ghost h: History)
      requires |Uncompressed(z, file)| <= INT_MAX
      ensures fresh(dataBase) && dataBase.Length == dbSize
      ensures var image := LoadImage(Uncompressed(z, file));
              |image.ring| != dbSize || Shows(image.ring, image.last, h) ==> Valid()
      ensures this.interval == interval
      ensures dbSize == if size == 0 then |LoadImage(Uncompressed(z, file)).ring| else size
      ensures fill == if interval != 0 then fillInterval / interval else 0
      ensures var image := LoadImage(Uncompressed(z, file));
              if |image.ring| == dbSize
              then history == h && last == image.last && dataBase[..] == image.ring && count == NonEmpty(dataBase[..])
              else history == EMPTY && count == 0
    {
      hide Uncompressed, LoadImage;
      var buf := Uncompress(z, file);
      var image := ReadImage(buf);
      var ok := size == 0 || |image.ring| == size;
      var ring := if ok then image.ring else seq(size, _ => []);
      dbSize := |ring|;
      this.interval := interval;
      fill := if interval != 0 then fillInterval / interval else 0;
      last := if ok then image.last else 0;
      dataBase := new Item[|ring|](i requires 0 <= i < |ring| => ring[i]);
      count, aInterval, aOffset := 0, 0, 0;
      history := if ok then h else EMPTY;
      new;
      LoadedIndexFits(buf);
      assert dataBase[..] == ring;
      count := NonEmpty(ring);
      if Shows(ring, last, history) { NonEmptyFits(ring, last, history); }
      if !ok { AllEmpty(ring); }
    }

    /** The file of a database: opened again, it gives back the last index and every slot. */
    method SaveToFile(z: Zip) returns (file: Bytes)
      requires Valid() && Storable(Image(last, dataBase[..]))
      requires |EncodeAll(ImageValues(Image(last, dataBase[..])))| <= INT_MAX
      ensures file == Compressed(z, EncodeAll(ImageValues(Image(last, dataBase[..]))))
      ensures Faithful(z) ==> LoadImage(Uncompressed(z, file)) == Image(last, dataBase[..])
    {
      var image := Image(last, dataBase[..]);
      hide EncodeAll, Uncompressed, LoadImage, Storable;
      ImageRoundTrip(image);
      var buf := WriteImage(image);
      if Faithful(z) { CompressionRoundTrip(z, buf); }
      file := Compress(z, buf);
    }

    /** Walks back from the slot of `pos` over `empty` − 1 skipped ones, filling or clearing them. */
    method WalkBack(pos: nat, data: Item, empty: nat)
      requires 0 < empty <= dbSize == dataBase.Length && empty <= pos
      modifies dataBase
      ensures forall k: nat :: pos - empty < k < pos ==> dataBase[Slot(k, dbSize)] == if empty <= fill then data else []
      ensures forall k: nat :: pos - dbSize < k <= pos && !(pos - empty < k < pos) ==>
                dataBase[Slot(k, dbSize)] == old(dataBase[Slot(k, dbSize)])
      ensures forall k :: pos < k < dbSize ==> dataBase[k] == old(dataBase[k])
    {
      var i := Slot(pos, dbSize);
      var isFill := empty <= fill;
      var left := empty - 1;
      ghost var low := pos;
      while left > 0
        invariant 0 <= left < empty && low == pos - (empty - 1 - left)
        invariant i == Slot(low, dbSize)
        invariant forall k :: pos < k < dbSize ==> dataBase[k] == old(dataBase[k])
        invariant forall k: nat :: low <= k < pos ==> dataBase[Slot(k, dbSize)] == if isFill then data else []
        invariant forall k: nat :: pos - dbSize < k <= pos && !(low <= k < pos) ==>
                    dataBase[Slot(k, dbSize)] == old(dataBase[Slot(k, dbSize)])
      {
        ModPred(low, dbSize);
        if i == 0 { i := dbSize; }
        i := i - 1;
        low := low - 1;
        SlotsDistinct(low, dbSize);
        dataBase[i] := if isFill then data else [];
        left := left - 1;
      }
    }

    /** Writes the new item and fills or clears the slots of the skipped indices. */
    method StoreAt(pos: nat, data: Item, empty: nat)
      requires 0 < dbSize == dataBase.Length && last == Last(history) && Refines(dataBase[..], history)
      requires pos > last && empty == Min(pos - last, dbSize)
      modifies dataBase
      ensures Refines(dataBase[..], Appended(history, data, pos, dbSize, fill))
      ensures forall k :: pos < k < dbSize ==> dataBase[k] == old(dataBase[k])
      ensures Stored(old(dataBase[..]), dataBase[..], last, pos, data, fill)
    {
      hide Stored, Unused, Appended;
      ghost var was := dataBase[..];
      ghost var h := Appended(history, data, pos, dbSize, fill);
      AppendedAt(history, data, pos, dbSize, fill);
      AppendedAtLast(history, h);
      SlotsDistinct(pos, dbSize);
      dataBase[Slot(pos, dbSize)] := data;
      WalkBack(pos, data, empty);
      AppendedIsStored(was, dataBase[..], history, data, pos, fill);
    }

    /** The section of `append` under the thread's lock; false when the index is not new. */
    method Insert(data: Item, pos: nat) returns (fires: bool)
      requires Valid() && dbSize > 0 && pos < U64
      modifies this`last, this`count, this`history, dataBase
      ensures Valid()
      ensures history == Appended(old(history), data, pos, dbSize, fill)
      ensures count == old(count) + (if pos > Last(old(history)) && old(count) < dbSize && old(count) < pos then 1 else 0)
      ensures fires == (pos > Last(old(history)) && AverageFires(pos, Last(old(history)), aInterval, aOffset))
      ensures if pos > old(last) then last == pos && Stored(old(dataBase[..]), dataBase[..], old(last), pos, data, fill)
              else last == old(last) && dataBase[..] == old(dataBase[..])
    {
      hide Stored;
      if pos <= last { return false; }
      var empty := Min(pos - last, dbSize);
      if count < dbSize && count < pos { count := count + 1; }
      StoreAt(pos, data, empty);
      history := Appended(history, data, pos, dbSize, fill);
      fires := AverageFires(pos, last, aInterval, aOffset);
      last := pos;
    }

    method Append(data: Item, index: nat, now: nat) returns (averaged: Option<seq<Item>>)
      requires Valid() && index < U64 && now < U64
      modifies this`last, this`count, this`history, dataBase
      ensures Valid()
      ensures dbSize == 0 ==> history == old(history) && last == old(last) && averaged == None
      ensures var pos := if index != 0 then index else if interval != 0 then now / interval
                         else (old(last) + 1) % 0x1_0000_0000_0000_0000;
              dbSize > 0 ==>
                if pos > old(last) then last == pos && Stored(old(dataBase[..]), dataBase[..], old(last), pos, data, fill)
                else last == old(last) && dataBase[..] == old(dataBase[..])
      ensures var pos, h := old(Position(index, now, interval, last)), old(history);
              dbSize > 0 ==>
              && history == Appended(h, data, pos, dbSize, fill)
              && count == old(count) + (if pos > Last(h) && old(count) < dbSize && old(count) < pos then 1 else 0)
              && averaged == if pos > Last(h) && AverageFires(pos, Last(h), aInterval, aOffset)
                             then Some(AverageList(history, dbSize, pos, aInterval)) else None
    {
      hide Stored;
      averaged := None;
      if dbSize == 0 { return; }
      var pos := Position(index, now, interval, last);
      var fires := Insert(data, pos);
      if fires {
        var list, _, _ := Read((pos - pos % aInterval - aInterval) % U64, aInterval);
        averaged := Some(list);
      }
    }

    method Read(val0: nat, size0: nat) returns (list: seq<Item>, ret: nat, lastIndex: nat)
      requires Valid() && dbSize > 0
      ensures ReadResult(list, ret, lastIndex) == ReadSpec(history, dbSize, val0, size0)
    {
      hide Refines, Unused, WindowItem, ReadSpec;
      var val: nat, size: nat := val0, size0;
      list := [];
      if size == 0 { size := dbSize; }
      lastIndex := last;
      if val > last {
        ReadAhead(history, dbSize, val0, size0);
        return list, last, lastIndex;
      }
      if last - val > dbSize { val := 1 + last - dbSize; }
      ghost var start := val;
      var i := Slot(val, dbSize);
      while size > 0
        invariant start <= val <= last && |list| == val - start
        invariant size + |list| == if size0 == 0 then dbSize else size0
        invariant i == Slot(val, dbSize)
        invariant forall j :: 0 <= j < |list| ==> list[j] == WindowItem(history, dbSize, start + j)
      {
        SlotShowsWindow(dataBase[..], history, val);
        list := list + [dataBase[i]];
        SlotSucc(val, dbSize);
        i := i + 1;
        if i == dbSize { i := 0; }
        size := size - 1;
        val := val + 1;
        if val > last { break; }
      }
      ret := val - 1;
      ReadCollects(history, dbSize, val0, size0, list);
    }

    method ReadFromArray(index: nat) returns (item: Item)
      requires Valid() && dbSize > 0
      ensures index < count ==> item == history[1 + last + index - count]
    {
      var i := 1 + last + index - count;
      item := dataBase[Slot(i, dbSize)];
    }

    method Clear()
      requires Valid()
      modifies this`last, this`count, this`history, dataBase
      ensures Valid() && history == EMPTY && count == 0
      ensures forall i :: 0 <= i < dbSize ==> dataBase[i] == []
    {
      for i := 0 to dbSize
        invariant forall j :: 0 <= j < i ==> dataBase[j] == []
      {
        dataBase[i] := [];
      }
      last, count := 0, 0;
      history := EMPTY;
    }
  }
}
