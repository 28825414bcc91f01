/**
 The timer table of a thread: timers sorted by id, each with its timeout and
 next deadline, and `wakeup`, the time the loop sleeps until. Times are in
 milliseconds; a timeout of 0 suspends a timer.
 */
module TimersSpec {
  datatype Timer = Timer(id: nat, timeout: int, expire: int)
  datatype Wakeup = Never | At(time: int)

  predicate NoLater(w: Wakeup, time: int) { w.At? && w.time <= time }

  function Earlier(w: Wakeup, time: int): Wakeup { if NoLater(w, time) then w else At(time) }

  ghost predicate Sorted(ts: seq<Timer>) {
    forall i, j :: 0 <= i < j < |ts| ==> ts[i].id < ts[j].id
  }

  ghost predicate Has(ts: seq<Timer>, id: nat) {
    exists i :: 0 <= i < |ts| && ts[i].id == id
  }

  /** The sorted table is the map from ids to timers. */
  ghost predicate Represents(ts: seq<Timer>, m: map<nat, Timer>) {
    && Sorted(ts)
    && (forall i :: 0 <= i < |ts| ==> ts[i].id in m && m[ts[i].id] == ts[i])
    && (forall id :: id in m ==> Has(ts, id))
  }

  lemma InsertSorted(ts: seq<Timer>, k: nat, t: Timer)
    requires Sorted(ts) && k <= |ts|
    requires (forall i :: 0 <= i < k ==> ts[i].id < t.id) && (forall i :: k <= i < |ts| ==> t.id < ts[i].id)
    ensures Sorted(ts[..k] + [t] + ts[k..])
  {
  }

  lemma InsertAt(ts: seq<Timer>, k: nat, t: Timer, i: nat)
    requires k <= |ts| && i <= |ts|
    ensures (ts[..k] + [t] + ts[k..])[i] == if i < k then ts[i] else if i == k then t else ts[i - 1]
  {
  }

  lemma InsertHas(ts: seq<Timer>, k: nat, t: Timer, id: nat)
    requires k <= |ts| && (id == t.id || Has(ts, id))
    ensures Has(ts[..k] + [t] + ts[k..], id)
  {
    var us := ts[..k] + [t] + ts[k..];
    if id == t.id {
      assert us[k].id == id;
    } else {
      var i :| 0 <= i < |ts| && ts[i].id == id;
      InsertAt(ts, k, t, if i < k then i else i + 1);
    }
  }

  lemma InsertAgrees(ts: seq<Timer>, m: map<nat, Timer>, k: nat, t: Timer, i: nat)
    requires k <= |ts| && i <= |ts|
    requires forall j :: 0 <= j < |ts| ==> ts[j].id != t.id && ts[j].id in m && m[ts[j].id] == ts[j]
    ensures var us, n := ts[..k] + [t] + ts[k..], m[t.id := t];
            us[i].id in n && n[us[i].id] == us[i]
  {
    InsertAt(ts, k, t, i);
  }

  lemma InsertRepresents(ts: seq<Timer>, m: map<nat, Timer>, k: nat, t: Timer)
    requires Represents(ts, m) && k <= |ts|
    requires (forall i :: 0 <= i < k ==> ts[i].id < t.id) && (forall i :: k <= i < |ts| ==> t.id < ts[i].id)
    ensures Represents(ts[..k] + [t] + ts[k..], m[t.id := t])
  {
    hide Sorted, Has;
    var us, n := ts[..k] + [t] + ts[k..], m[t.id := t];
    InsertSorted(ts, k, t);
    forall i: nat | i < |us|
      ensures us[i].id in n && n[us[i].id] == us[i]
    {
      InsertAgrees(ts, m, k, t, i);
    }
    forall id | id in n
      ensures Has(us, id)
    {
      InsertHas(ts, k, t, id);
    }
  }

  lemma RemoveRepresents(ts: seq<Timer>, m: map<nat, Timer>, k: nat)
    requires Represents(ts, m) && k < |ts|
    ensures Represents(ts[..k] + ts[k + 1..], m - {ts[k].id})
  {
    var us := ts[..k] + ts[k + 1..];
    forall id | id in m - {ts[k].id}
      ensures Has(us, id)
    {
      var i :| 0 <= i < |ts| && ts[i].id == id;
      assert us[if i < k then i else i - 1].id == id;
    }
  }

  lemma UpdateRepresents(ts: seq<Timer>, m: map<nat, Timer>, k: nat, t: Timer)
    requires Represents(ts, m) && k < |ts| && t.id == ts[k].id
    ensures Represents(ts[k := t], m[t.id := t])
  {
    var us := ts[k := t];
    forall id | id in m
      ensures Has(us, id)
    {
      var i :| 0 <= i < |ts| && ts[i].id == id;
      assert us[i].id == id;
    }
  }

  /** No suspended or running timer is forgotten: the loop never sleeps past a running timer's deadline. */
  ghost predicate WakesInTime(ts: seq<Timer>, w: Wakeup) {
    forall t :: t in ts && t.timeout > 0 ==> NoLater(w, t.expire)
  }

  // ---- One scan ----

  predicate Due(t: Timer, now: int) { t.timeout != 0 && t.expire <= now }

  /** A due timer moves to its next deadline, or to a full timeout from now if that has passed as well. */
  function Advanced(t: Timer, now: int): Timer {
    if !Due(t, now) then t
    else if t.expire + t.timeout <= now then t.(expire := now + t.timeout)
    else t.(expire := t.expire + t.timeout)
  }

  function Scanned(ts: seq<Timer>, now: int): seq<Timer> {
    seq(|ts|, i requires 0 <= i < |ts| => Advanced(ts[i], now))
  }

  function DueIds(ts: seq<Timer>, now: int): seq<nat> {
    if ts == [] then []
    else DueIds(ts[..|ts| - 1], now) + if Due(ts[|ts| - 1], now) then [ts[|ts| - 1].id] else []
  }

  function Soonest(ts: seq<Timer>): Wakeup {
    if ts == [] then Never
    else
      var w, t := Soonest(ts[..|ts| - 1]), ts[|ts| - 1];
      if t.timeout == 0 then w else Earlier(w, t.expire)
  }

  lemma ScanSnoc(ts: seq<Timer>, t: Timer, now: int)
    ensures Scanned(ts + [t], now) == Scanned(ts, now) + [Advanced(t, now)]
    ensures DueIds(ts + [t], now) == DueIds(ts, now) + if Due(t, now) then [t.id] else []
    ensures Soonest(ts + [t]) == if t.timeout == 0 then Soonest(ts) else Earlier(Soonest(ts), t.expire)
  {
    assert (ts + [t])[..|ts|] == ts;
  }

  lemma ScanRepresents(ts: seq<Timer>, m: map<nat, Timer>, now: int)
    requires Represents(ts, m)
    ensures Represents(Scanned(ts, now), map id | id in m :: Advanced(m[id], now))
  {
    var us := Scanned(ts, now);
    forall i | 0 <= i < |ts|
      ensures us[i] == Advanced(ts[i], now) && us[i].id == ts[i].id
    {
    }
    hide Advanced;
    forall id | id in m
      ensures Has(us, id)
    {
      var i :| 0 <= i < |ts| && ts[i].id == id;
      assert us[i].id == id;
    }
    forall i | 0 <= i < |us|
      ensures us[i].id in m && Advanced(m[us[i].id], now) == us[i]
    {
      assert m[ts[i].id] == ts[i];
    }
  }

  lemma {:induction false} SoonestWakesInTime(ts: seq<Timer>)
    ensures forall t :: t in ts && t.timeout != 0 ==> NoLater(Soonest(ts), t.expire)
  {
    if ts != [] {
      SoonestWakesInTime(ts[..|ts| - 1]);
      assert forall t :: t in ts ==> t in ts[..|ts| - 1] || t == ts[|ts| - 1];
    }
  }

  /** The wakeup is no earlier than it needs to be: some running timer's deadline, or never when none runs. */
  lemma {:induction false} SoonestIsADeadline(ts: seq<Timer>)
    ensures Soonest(ts) == Never <==> forall t :: t in ts ==> t.timeout == 0
    ensures Soonest(ts) != Never ==> exists t :: t in ts && t.timeout != 0 && Soonest(ts) == At(t.expire)
  {
    if ts != [] {
      var n := |ts| - 1;
      SoonestIsADeadline(ts[..n]);
      assert forall t :: t in ts <==> t in ts[..n] || t == ts[n];
    }
  }

  lemma {:induction false} DueIsRunning(ts: seq<Timer>, now: int, id: nat)
    requires id in DueIds(ts, now)
    ensures exists i :: 0 <= i < |ts| && ts[i].id == id && ts[i].timeout != 0 && ts[i].expire <= now
  {
    var n := |ts| - 1;
    if id in DueIds(ts[..n], now) {
      DueIsRunning(ts[..n], now, id);
      var i :| 0 <= i < n && ts[..n][i].id == id && ts[..n][i].timeout != 0 && ts[..n][i].expire <= now;
      assert ts[i].id == id;
    } else {
      assert ts[n].id == id;
    }
  }

  /** Due timers are fired in the order of their ids. */
  lemma {:induction false} DueInOrder(ts: seq<Timer>, now: int)
    requires Sorted(ts)
    ensures var ids := DueIds(ts, now); forall i, j :: 0 <= i < j < |ids| ==> ids[i] < ids[j]
  {
    if ts != [] {
      var n := |ts| - 1;
      DueInOrder(ts[..n], now);
      var ids := DueIds(ts[..n], now);
      forall i | 0 <= i < |ids|
        ensures ids[i] < ts[n].id
      {
        DueIsRunning(ts[..n], now, ids[i]);
      }
    }
  }

  /** In a sorted table each due timer is fired exactly once, and no other. */
  lemma {:induction false} DueOnce(ts: seq<Timer>, now: int, id: nat)
    requires Sorted(ts)
    ensures multiset(DueIds(ts, now))[id] == if exists t :: t in ts && t.id == id && Due(t, now) then 1 else 0
  {
    if ts != [] {
      var n := |ts| - 1;
      DueOnce(ts[..n], now, id);
      assert forall t :: t in ts <==> t in ts[..n] || t == ts[n];
      assert forall t :: t in ts[..n] ==> t.id < ts[n].id;
    }
  }

  /** After a scan every running timer's deadline lies ahead. */
  lemma ScanLooksAhead(ts: seq<Timer>, now: int)
    ensures forall t :: t in Scanned(ts, now) && t.timeout > 0 ==> t.expire > now
    ensures Sorted(ts) ==> Sorted(Scanned(ts, now))
  {
  }

  /** While the loop would go on sleeping, no running timer is due. */
  lemma SleepIsSafe(ts: seq<Timer>, w: Wakeup, now: int)
    requires WakesInTime(ts, w) && !NoLater(w, now)
    ensures forall t :: t in ts && t.timeout > 0 ==> !Due(t, now)
  {
  }

  // ---- The deadlines of one timer over many scans ----

  datatype Ticks = Ticks(t: Timer, fired: nat)

  function Scans(t: Timer, nows: seq<int>): Ticks {
    if nows == [] then Ticks(t, 0)
    else
      var r := Scans(t, nows[..|nows| - 1]);
      var now := nows[|nows| - 1];
      Ticks(Advanced(r.t, now), r.fired + if Due(r.t, now) then 1 else 0)
  }

  /** No scan comes a whole timeout after a deadline it finds. */
  ghost predicate NoOverload(t: Timer, nows: seq<int>) {
    forall i :: 0 <= i < |nows| ==> nows[i] < Scans(t, nows[..i]).t.expire + t.timeout
  }

  /** Without overload the deadlines are the multiples of the timeout from the first: there is no drift. */
  lemma {:induction false} DeadlinesDoNotDrift(t: Timer, nows: seq<int>)
    requires t.timeout > 0 && NoOverload(t, nows)
    requires forall i, j :: 0 <= i < j < |nows| ==> nows[i] <= nows[j]
    ensures var r := Scans(t, nows);
            && r.t == t.(expire := t.expire + r.fired * t.timeout)
            && (nows != [] ==> r.t.expire > nows[|nows| - 1])
            && (r.fired > 0 ==> r.t.expire - t.timeout <= nows[|nows| - 1])
  {
    if nows != [] {
      var n := |nows| - 1;
      assert forall i :: 0 <= i <= n ==> nows[..n][..i] == nows[..i];
      assert NoOverload(t, nows[..n]);
      assert nows[n] < Scans(t, nows[..n]).t.expire + t.timeout;
      hide NoOverload;
      DeadlinesDoNotDrift(t, nows[..n]);
      NextDeadline(Scans(t, nows[..n]), t, nows[n]);
    }
  }

  lemma NextDeadline(r: Ticks, t: Timer, now: int)
    requires t.timeout > 0 && r.t == t.(expire := t.expire + r.fired * t.timeout) && now < r.t.expire + t.timeout
    ensures Advanced(r.t, now).expire > now
    ensures if Due(r.t, now) then Advanced(r.t, now) == t.(expire := t.expire + (r.fired + 1) * t.timeout)
            else Advanced(r.t, now) == r.t
  {
    TimesSucc(r.fired, t.timeout);
  }

  lemma TimesSucc(n: nat, d: int)
    ensures (n + 1) * d == n * d + d
  {
  }

  /** A suspended timer, and one whose deadline lies ahead, is left alone by a scan. */
  lemma OnlyDueMove(t: Timer, now: int)
    ensures Advanced(t, now) == t.(expire := Advanced(t, now).expire)
    ensures t.timeout > 0 ==> (Advanced(t, now) == t <==> t.expire > now)
    ensures t.timeout == 0 ==> Advanced(t, now) == t
  {
  }

  /** With overload a deadline slips, but a scan still leaves it between now and one timeout from now. */
  lemma OverloadRestarts(t: Timer, now: int)
    requires t.timeout > 0 && Due(t, now)
    ensures now < Advanced(t, now).expire <= now + t.timeout
    ensures Advanced(t, now).expire == if now < t.expire + t.timeout then t.expire + t.timeout else now + t.timeout
    ensures Advanced(t, now).expire == t.expire + t.timeout <==> now < t.expire + t.timeout
  {
  }
}

module TimersModel {
  import opened TimersSpec

  class TimerTable {
    var timers: seq<Timer>
    var wakeup: Wakeup
    ghost var table: map<nat, Timer>

    ghost predicate Valid()
      reads this
    {
      Represents(timers, table) && WakesInTime(timers, wakeup)
    }

    constructor ()
      ensures Valid() && table == map[] && wakeup == Never
    {
      timers, wakeup, table := [], Never, map[];
    }

    /** The first position whose id is not below `id`, by bisection. */
    method LowerBound(id: nat) returns (k: nat)
      requires Represents(timers, table)
      ensures k <= |timers|
      ensures forall i :: 0 <= i < k ==> timers[i].id < id
      ensures forall i :: k <= i < |timers| ==> timers[i].id >= id
      ensures id in table <==> k < |timers| && timers[k].id == id
    {
      k := 0;
      var n: nat := |timers|;
      while n > 0
        invariant k + n <= |timers|
        invariant forall i :: 0 <= i < k ==> timers[i].id < id
        invariant forall i :: k + n <= i < |timers| ==> timers[i].id >= id
      {
        var half := n / 2;
        if timers[k + half].id < id {
          k := k + half + 1;
          n := n - half - 1;
        } else {
          n := half;
        }
      }
      assert id in table ==> Has(timers, id);
    }

    /** The first id not in use, and the place for it. */
    method FreeId() returns (id: nat)
      requires Represents(timers, table)
      ensures id !in table && id <= |timers|
      ensures forall i: nat :: i < id ==> i in table
      ensures forall i :: 0 <= i < id ==> timers[i].id < id
      ensures forall i :: id <= i < |timers| ==> id < timers[i].id
    {
      id := 0;
      while id < |timers| && timers[id].id == id
        invariant id <= |timers|
        invariant forall i :: 0 <= i < id ==> timers[i].id == i
        invariant id < |timers| ==> timers[id].id >= id
      {
        id := id + 1;
      }
      assert id in table ==> Has(timers, id);
      forall i: nat | i < id
        ensures i in table
      {
        assert timers[i].id == i;
      }
    }

    /** A deadline the loop must not sleep past. */
    method WakeBy(time: int)
      modifies this`wakeup
      ensures wakeup == Earlier(old(wakeup), time)
      ensures wakeup == if old(wakeup) == Never || time < old(wakeup).time then At(time) else old(wakeup)
    {
      if !NoLater(wakeup, time) { wakeup := At(time); }
    }

    method AppendTimer(ms: int, now: int) returns (id: nat)
      requires Valid()
      modifies this
      ensures Valid()
      ensures id !in old(table) && forall i: nat :: i < id ==> i in old(table)
      ensures table == old(table)[id := Timer(id, ms, if ms > 0 then now + ms else 0)]
      ensures wakeup == if ms > 0 && (old(wakeup) == Never || now + ms < old(wakeup).time) then At(now + ms) else old(wakeup)
    {
      hide Represents;
      id := FreeId();
      var expire := 0;
      if ms > 0 {
        expire := now + ms;
        WakeBy(expire);
      }
      var t := Timer(id, ms, expire);
      InsertRepresents(timers, table, id, t);
      timers := timers[..id] + [t] + timers[id..];
      table := table[id := t];
    }

    method ModifyTimer(id: nat, ms: int, now: int) returns (ok: bool)
      requires Valid()
      modifies this
      ensures Valid() && ok == (id in old(table))
      ensures table == if !ok then old(table)
                       else old(table)[id := Timer(id, ms, if ms > 0 then now + ms else old(table[id]).expire)]
      ensures wakeup == if ok && ms > 0 && (old(wakeup) == Never || now + ms < old(wakeup).time) then At(now + ms)
                        else old(wakeup)
    {
      var k := LowerBound(id);
      if k == |timers| || timers[k].id != id { return false; }
      var t := timers[k].(timeout := ms);
      if ms > 0 {
        t := t.(expire := now + ms);
        WakeBy(t.expire);
      }
      UpdateRepresents(timers, table, k, t);
      timers := timers[k := t];
      table := table[id := t];
      return true;
    }

    method RemoveTimer(id: nat) returns (ok: bool)
      requires Valid()
      modifies this`timers, this`table
      ensures Valid() && ok == (id in old(table)) && table == old(table) - {id}
    {
      var k := LowerBound(id);
      if k == |timers| || timers[k].id != id { return false; }
      RemoveRepresents(timers, table, k);
      timers := timers[..k] + timers[k + 1..];
      table := table - {id};
      return true;
    }

    /** One timer of the scan. */
    method ScanOne(t0: Timer, now: int) returns (t: Timer, fired: bool)
      modifies this`wakeup
      ensures t == Advanced(t0, now) && fired == Due(t0, now)
      ensures wakeup == if t.timeout == 0 then old(wakeup) else Earlier(old(wakeup), t.expire)
    {
      t, fired := t0, false;
      if t.timeout == 0 { return; }
      if t.expire <= now {
        t := t.(expire := t.expire + t.timeout);
        if t.expire <= now { t := t.(expire := now + t.timeout); }
        fired := true;
      }
      WakeBy(t.expire);
    }

    /** The scan of the loop: fires what is due and recomputes `wakeup`. */
    method Scan(now: int) returns (fired: seq<nat>)
      requires Valid()
      modifies this
      ensures Valid()
      ensures timers == Scanned(old(timers), now) && fired == DueIds(old(timers), now) && wakeup == Soonest(timers)
      ensures table == map id | id in old(table) :: Advanced(old(table)[id], now)
      ensures wakeup == Never <==> forall t :: t in timers ==> t.timeout == 0
      ensures wakeup != Never ==> exists t :: t in timers && t.timeout != 0 && wakeup == At(t.expire)
    {
      hide Scanned, DueIds, Soonest, Advanced, Represents, Due;
      fired := [];
      wakeup := Never;
      ghost var before := timers;
      var done: seq<Timer> := [];
      ScanNothing(now);
      for i := 0 to |timers|
        invariant timers == before && table == old(table)
        invariant done == Scanned(before[..i], now) && fired == DueIds(before[..i], now) && wakeup == Soonest(done)
      {
        var t, due := ScanOne(timers[i], now);
        if due { fired := fired + [t.id]; }
        ScanSnoc(before[..i], before[i], now);
        ScanSnoc(done, t, now);
        AdvancedId(before[i], now);
        assert before[..i + 1] == before[..i] + [before[i]];
        done := done + [t];
      }
      assert before[..|before|] == before;
      timers := done;
      table := map id | id in table :: Advanced(table[id], now);
      ScanRepresents(before, old(table), now);
      SoonestWakesInTime(timers);
      SoonestIsADeadline(timers);
    }
  }

  lemma ScanNothing(now: int)
    ensures Scanned([], now) == [] && DueIds([], now) == [] && Soonest([]) == Never
  {
  }

  lemma AdvancedId(t: Timer, now: int)
    ensures Advanced(t, now).id == t.id
  {
  }
}
