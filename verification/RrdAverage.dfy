/**
 The averaging callback of the database: which buckets of `aInterval`
 consecutive indices it reports over a run of appends, and with which items.
 */
module RrdAverage {
  import opened Wrappers
  import opened RrdSpec

  datatype Op = Op(data: Item, pos: nat)
  datatype Report = Report(bucket: nat, items: seq<Item>)

  function RunHistory(h: History, ops: seq<Op>, dbSize: nat, fill: nat): History
    decreases |ops|
  {
    if ops == [] then h
    else RunHistory(Appended(h, ops[0].data, ops[0].pos, dbSize, fill), ops[1..], dbSize, fill)
  }

  /** The callbacks a run of appends makes, each tagged with the bucket before the new index's bucket. */
  function RunReports(h: History, ops: seq<Op>, dbSize: nat, fill: nat, aInterval: nat): seq<Report>
    requires dbSize > 0 && aInterval > 0
    decreases |ops|
  {
    if ops == [] then []
    else
      var Op(data, pos) := ops[0];
      var next := Appended(h, data, pos, dbSize, fill);
      var rest := RunReports(next, ops[1..], dbSize, fill, aInterval);
      if pos > Last(h) && AverageFires(pos, Last(h), aInterval, 0) && Bucket(pos, aInterval) > 0 then
        [Report(Bucket(pos, aInterval) - 1, AverageList(next, dbSize, pos, aInterval))] + rest
      else rest
  }

  ghost predicate Fits(ops: seq<Op>) {
    forall i :: 0 <= i < |ops| ==> ops[i].pos < U64
  }

  lemma SmallMod(x: nat)
    requires x < U64
    ensures x % U64 == x
  {
  }

  /** A start index below zero wraps to the top of the 64-bit range. */
  lemma NegativeWraps(x: int)
    requires -1 * U64 <= x < 0
    ensures x % U64 == x + U64
  {
  }

  lemma FiresIsNewBucket(pos: nat, last: nat, aInterval: nat)
    requires last < pos < U64 && aInterval > 0
    ensures Bucket(last, aInterval) <= Bucket(pos, aInterval)
    ensures AverageFires(pos, last, aInterval, 0) <==> Bucket(last, aInterval) < Bucket(pos, aInterval)
  {
    BucketMono(last, pos, aInterval);
    BucketBelow(pos, aInterval);
    SmallMod(pos);
    SmallMod(last);
    SmallMod(Bucket(pos, aInterval) - Bucket(last, aInterval));
  }

  lemma BucketBelow(k: nat, n: nat)
    requires n > 0
    ensures Bucket(k, n) <= k
  {
    MulLe(1, n, Bucket(k, n));
  }

  lemma BucketStep(k: nat, n: nat)
    requires n > 0
    ensures Bucket(k, n) <= Bucket(k + 1, n) <= Bucket(k, n) + 1
  {
    BucketMono(k, k + 1, n);
    var b := Bucket(k, n);
    assert (b + 2) * n == (b + 1) * n + n;
    BucketAbove(b + 2, k + 1, n);
  }

  /** The callback gets the bucket's own items when the bucket still lies above the lower edge of the ring. */
  lemma AverageIsBucket(h: History, dbSize: nat, aInterval: nat)
    requires 0 < aInterval && Last(h) < U64 && Bucket(Last(h), aInterval) > 0
    requires Last(h) % aInterval + aInterval < dbSize
    ensures var b := Bucket(Last(h), aInterval) - 1;
            && 0 <= b * aInterval <= (b + 1) * aInterval <= Last(h)
            && AverageList(h, dbSize, Last(h), aInterval) == h[b * aInterval..(b + 1) * aInterval]
  {
    var pos := Last(h);
    var val := (Bucket(pos, aInterval) - 1) * aInterval;
    assert pos - pos % aInterval - aInterval == val;
    SmallMod(val);
    ReadIsExact(h, dbSize, val, aInterval);
  }

  /** With offset r the test fires at pos exactly when the shifted bucket boundary lies between last and pos. */
  lemma FiresInFirstBucketIff(pos: nat, last: nat, aInterval: nat, aOffset: nat)
    requires last < pos < aInterval && pos + aOffset < U64
    ensures AverageFires(pos, last, aInterval, aOffset) <==>
            last + aOffset % aInterval < aInterval <= pos + aOffset % aInterval
  {
    hide Bucket, AverageFires;
    ShiftedBy(last, aInterval, aOffset);
    ShiftedBy(pos, aInterval, aOffset);
    FiresIsNewBucket(pos + aOffset, last + aOffset, aInterval);
    OffsetShifts(pos, last, aInterval, aOffset);
  }

  lemma ShiftedBy(k: nat, n: nat, offset: nat)
    requires k < n
    ensures Bucket(k + offset, n) == offset / n + if k + offset % n < n then 0 else 1
  {
    hide Bucket;
    Division(offset, n);
    ShiftedBucket(k, n, offset / n, offset % n);
  }

  lemma Division(k: nat, n: nat)
    requires n > 0
    ensures k == n * (k / n) + k % n && 0 <= k % n < n && k / n >= 0
  {
  }

  lemma OffsetShifts(pos: nat, last: nat, aInterval: nat, aOffset: nat)
    ensures AverageFires(pos, last, aInterval, aOffset) == AverageFires(pos + aOffset, last + aOffset, aInterval, 0)
  {
  }

  /** Adding an offset of q whole intervals and r more to an index of the first bucket. */
  lemma ShiftedBucket(k: nat, n: nat, q: nat, r: nat)
    requires k < n && r < n
    ensures Bucket(k + (n * q + r), n) == if k + r < n then q else q + 1
  {
    if k + r < n {
      DivModUnique(k + (n * q + r), n, q, k + r);
    } else {
      TimesNext(n, q);
      DivModUnique(k + (n * q + r), n, q + 1, k + r - n);
    }
  }

  lemma TimesNext(n: nat, q: nat)
    ensures n * (q + 1) == n * q + n
  {
  }

  /** An append at pos right after pos - 1, both inside the first bucket, fires. */
  predicate FiresEarly(pos: nat, aInterval: nat, aOffset: nat) {
    0 < pos < aInterval && AverageFires(pos, pos - 1, aInterval, aOffset)
  }

  /** Some step inside the first bucket fires exactly when the offset is no multiple of the interval. */
  lemma OffsetFiresEarlyIff(aInterval: nat, aOffset: nat)
    requires 0 < aInterval && aInterval + aOffset < U64
    ensures (exists pos: nat :: FiresEarly(pos, aInterval, aOffset)) <==> aOffset % aInterval != 0
  {
    forall pos: nat
      ensures FiresEarly(pos, aInterval, aOffset) ==> pos + aOffset % aInterval == aInterval && pos < aInterval
    {
      if 0 < pos < aInterval { FiresInFirstBucketIff(pos, pos - 1, aInterval, aOffset); }
    }
    if aOffset % aInterval != 0 {
      var pos: nat := aInterval - aOffset % aInterval;
      FiresInFirstBucketIff(pos, pos - 1, aInterval, aOffset);
      assert FiresEarly(pos, aInterval, aOffset);
    }
  }

  /** With an offset the callback can fire inside the first bucket; the start index then wraps and the list is empty. */
  lemma AverageEmptyInFirstBucket(h: History, dbSize: nat, aInterval: nat)
    requires dbSize > 0 && 0 < aInterval && Last(h) + aInterval < U64
    ensures AverageList(h, dbSize, Last(h), aInterval) == [] <==> Bucket(Last(h), aInterval) == 0
  {
    var pos := Last(h);
    var val := pos - pos % aInterval - aInterval;
    assert val == (Bucket(pos, aInterval) - 1) * aInterval;
    hide Bucket;
    if Bucket(pos, aInterval) == 0 {
      NegativeWraps(val);
    } else {
      MulLe(1, Bucket(pos, aInterval), aInterval);
      SmallMod(val);
    }
  }

  lemma {:induction false} RunExtends(h: History, ops: seq<Op>, dbSize: nat, fill: nat)
    ensures |h| <= |RunHistory(h, ops, dbSize, fill)| && RunHistory(h, ops, dbSize, fill)[..|h|] == h
    decreases |ops|
  {
    if ops != [] {
      var next := Appended(h, ops[0].data, ops[0].pos, dbSize, fill);
      RunExtends(next, ops[1..], dbSize, fill);
      assert next[..|h|] == h;
    }
  }

  ghost predicate IsBucket(r: Report, final: History, aInterval: nat) {
    && 0 <= r.bucket * aInterval <= (r.bucket + 1) * aInterval < |final|
    && r.items == final[r.bucket * aInterval..(r.bucket + 1) * aInterval]
  }

  ghost predicate ReportsBuckets(reports: seq<Report>, final: History, from: nat, aInterval: nat) {
    && (forall r :: r in reports ==> from <= r.bucket && IsBucket(r, final, aInterval))
    && (forall i, j :: 0 <= i < j < |reports| ==> reports[i].bucket < reports[j].bucket)
  }

  lemma PrefixSlice<T>(whole: seq<T>, part: seq<T>, i: nat, j: nat)
    requires i <= j <= |part| <= |whole| && whole[..|part|] == part
    ensures whole[i..j] == part[i..j]
  {
    forall k | 0 <= k < j - i
      ensures whole[i..j][k] == part[i..j][k]
    {
      assert whole[i + k] == whole[..|part|][i + k];
    }
  }

  lemma FirstReport(h: History, next: History, final: History, dbSize: nat, aInterval: nat)
    requires 0 < aInterval && 2 * aInterval <= dbSize && Last(h) < Last(next) < U64
    requires AverageFires(Last(next), Last(h), aInterval, 0)
    requires |next| <= |final| && final[..|next|] == next
    ensures Bucket(Last(next), aInterval) > Bucket(Last(h), aInterval)
    ensures IsBucket(Report(Bucket(Last(next), aInterval) - 1, AverageList(next, dbSize, Last(next), aInterval)), final, aInterval)
  {
    FiresIsNewBucket(Last(next), Last(h), aInterval);
    AverageIsBucket(next, dbSize, aInterval);
    var b := Bucket(Last(next), aInterval) - 1;
    PrefixSlice(final, next, b * aInterval, (b + 1) * aInterval);
  }

  lemma ReportFirst(r: Report, rest: seq<Report>, final: History, from: nat, next: nat, aInterval: nat)
    requires ReportsBuckets(rest, final, next, aInterval) && IsBucket(r, final, aInterval)
    requires from <= r.bucket && r.bucket + 1 == next
    ensures ReportsBuckets([r] + rest, final, from, aInterval)
  {
  }

  /** Over any run: every report holds exactly its bucket's items, and no bucket is reported twice. */
  lemma {:induction false} ReportsAreDistinctBuckets(h: History, ops: seq<Op>, dbSize: nat, fill: nat, aInterval: nat)
    requires 0 < aInterval && 2 * aInterval <= dbSize && Last(h) < U64 && Fits(ops)
    ensures ReportsBuckets(RunReports(h, ops, dbSize, fill, aInterval), RunHistory(h, ops, dbSize, fill),
                           Bucket(Last(h), aInterval), aInterval)
    decreases |ops|
  {
    if ops != [] {
      var next := Appended(h, ops[0].data, ops[0].pos, dbSize, fill);
      var final := RunHistory(h, ops, dbSize, fill);
      var rest := RunReports(next, ops[1..], dbSize, fill, aInterval);
      ReportsAreDistinctBuckets(next, ops[1..], dbSize, fill, aInterval);
      BucketMono(Last(h), Last(next), aInterval);
      RunExtends(next, ops[1..], dbSize, fill);
      hide RunHistory, Bucket, IsBucket, AverageList;
      if ops[0].pos > Last(h) && AverageFires(ops[0].pos, Last(h), aInterval, 0) {
        FirstReport(h, next, final, dbSize, aInterval);
        var b := Bucket(Last(next), aInterval);
        ReportFirst(Report(b - 1, AverageList(next, dbSize, Last(next), aInterval)), rest, final,
                    Bucket(Last(h), aInterval), b, aInterval);
      } else {
        assert RunReports(h, ops, dbSize, fill, aInterval) == rest;
      }
    }
  }

  ghost predicate Consecutive(ops: seq<Op>, first: nat) {
    forall i :: 0 <= i < |ops| ==> ops[i].pos == first + i
  }

  /** With consecutive indices every completed bucket is reported, once and in order. */
  lemma {:induction false} EveryBucketReported(h: History, ops: seq<Op>, dbSize: nat, fill: nat, aInterval: nat)
    requires 0 < aInterval && 2 * aInterval <= dbSize && Last(h) < U64 && Fits(ops)
    requires Consecutive(ops, |h|)
    ensures var reports, final := RunReports(h, ops, dbSize, fill, aInterval), RunHistory(h, ops, dbSize, fill);
            && |reports| == Bucket(Last(final), aInterval) - Bucket(Last(h), aInterval)
            && forall i :: 0 <= i < |reports| ==> reports[i].bucket == Bucket(Last(h), aInterval) + i
    decreases |ops|
  {
    if ops != [] {
      var next := Appended(h, ops[0].data, ops[0].pos, dbSize, fill);
      EveryBucketReported(next, ops[1..], dbSize, fill, aInterval);
      FiresIsNewBucket(Last(next), Last(h), aInterval);
      BucketStep(Last(h), aInterval);
    }
  }
}
