/**
 Duplicate suppression in the log, for one severity. A message equal to the
 last one is counted instead of being written; the count is reported at 10,
 100 and every 1000 up to 10000, when a different message comes, and when the
 severity's timer ends the block.
 */
module LogDuplicates {
  import opened Wrappers
  import opened Codec

  /** Messages are compared without their time stamp. */
  datatype Message = Message(kind: nat, name: Bytes, text: Bytes, note: Bytes)

  datatype Last = Last(message: Message, count: nat)
  datatype Out = Plain(m: Message) | Repeated(m: Message, n: nat)
  datatype Event = Msg(m: Message) | Timer

  const LIMIT := 10000

  const BLANK := Message(0, [], [], [])

  predicate Milestone(n: nat) { n % 1000 == 0 || n == 100 || n == 10 }

  /** The report owed for a block whose count was not reported at a milestone. */
  function Tail(l: Last): seq<Out> {
    if l.count > 1 && !Milestone(l.count) then [Repeated(l.message, l.count)] else []
  }

  function Process(l: Last, m: Message): (Last, seq<Out>) {
    if m == l.message then
      if l.count < LIMIT then
        (l.(count := l.count + 1), if Milestone(l.count + 1) then [Repeated(m, l.count + 1)] else [])
      else (l, [])
    else (Last(m, 1), (if l.count <= LIMIT then Tail(l) else []) + [Plain(m)])
  }

  function TimerTask(l: Last): (Last, seq<Out>) {
    (Last(BLANK, 0), Tail(l))
  }

  function Step(l: Last, e: Event): (Last, seq<Out>) {
    match e
    case Msg(m) => Process(l, m)
    case Timer => TimerTask(l)
  }

  /** The state a severity starts in, and everything written by a run from there. */
  const START := Last(BLANK, 1)

  function Run(es: seq<Event>): (Last, seq<Out>) {
    if es == [] then (START, [])
    else
      var (l, out) := Run(es[..|es| - 1]);
      var (l', more) := Step(l, es[|es| - 1]);
      (l', out + more)
  }

  // ---- What the output says, and what it should say ----

  datatype Block = Block(m: Message, n: nat)

  /** Reading the output: a plain message opens a block, a report updates its count. */
  function Summary(out: seq<Out>): seq<Block> {
    if out == [] then []
    else
      var s := Summary(out[..|out| - 1]);
      match out[|out| - 1]
      case Plain(m) => s + [Block(m, 1)]
      case Repeated(m, n) => if s != [] && s[|s| - 1].m == m then s[|s| - 1 := Block(m, n)] else s
  }

  /** The run lengths of the input; a timer closes the block. */
  datatype Lengths = Lengths(blocks: seq<Block>, open: bool)

  function RunLengths(es: seq<Event>): Lengths {
    if es == [] then Lengths([], false)
    else
      var r := RunLengths(es[..|es| - 1]);
      var n := |r.blocks|;
      match es[|es| - 1]
      case Timer => r.(open := false)
      case Msg(m) =>
        if r.open && n > 0 && r.blocks[n - 1].m == m then
          r.(blocks := r.blocks[n - 1 := Block(m, r.blocks[n - 1].n + 1)])
        else Lengths(r.blocks + [Block(m, 1)], true)
  }

  function Capped(n: nat): nat { if n < LIMIT then n else LIMIT }

  /** The count last reported for an open block of n messages. */
  function Reported(n: nat): (r: nat)
    requires n > 0
    ensures 0 < r <= n
  {
    if n == 1 || Milestone(n) then n else Reported(n - 1)
  }

  function CappedBlocks(bs: seq<Block>): seq<Block> {
    seq(|bs|, i requires 0 <= i < |bs| => Block(bs[i].m, Capped(bs[i].n)))
  }

  /** What should be readable in the output at any moment. */
  function Expected(r: Lengths): seq<Block>
    requires forall b :: b in r.blocks ==> b.n > 0
  {
    var bs := CappedBlocks(r.blocks);
    var n := |bs|;
    if r.open && n > 0 then
      assert r.blocks[n - 1] in r.blocks;
      bs[n - 1 := Block(bs[n - 1].m, Reported(bs[n - 1].n))]
    else bs
  }

  /** A blank message that starts a block: the first event, or the first after a timer. */
  predicate StartsBlank(es: seq<Event>, i: nat)
    requires i < |es|
  {
    es[i] == Msg(BLANK) && (i == 0 || es[i - 1].Timer?)
  }

  ghost predicate NoBlankStarts(es: seq<Event>) {
    forall i :: 0 <= i < |es| ==> !StartsBlank(es, i)
  }

  /** How many there are. */
  function BlankStarts(es: seq<Event>): nat {
    if es == [] then 0 else BlankStarts(es[..|es| - 1]) + if StartsBlank(es, |es| - 1) then 1 else 0
  }

  lemma {:induction false} BlankStartsIff(es: seq<Event>)
    ensures BlankStarts(es) == 0 <==> NoBlankStarts(es)
  {
    if es != [] {
      var n := |es| - 1;
      BlankStartsIff(es[..n]);
      assert forall i :: 0 <= i < n ==> StartsBlank(es[..n], i) == StartsBlank(es, i);
      assert NoBlankStarts(es) <==> NoBlankStarts(es[..n]) && !StartsBlank(es, n);
    }
  }

  function Open(es: seq<Event>): bool { es != [] && es[|es| - 1].Msg? }

  ghost predicate Tracks(l: Last, out: seq<Out>, r: Lengths) {
    && (forall b :: b in r.blocks ==> b.n > 0)
    && (r.open ==> r.blocks != [] && l == Last(r.blocks[|r.blocks| - 1].m, Capped(r.blocks[|r.blocks| - 1].n)))
    && (!r.open ==> l.message == BLANK && l.count <= 1)
    && Summary(out) == Expected(r)
  }

  lemma SummaryPlain(out: seq<Out>, m: Message)
    ensures Summary(out + [Plain(m)]) == Summary(out) + [Block(m, 1)]
  {
    assert (out + [Plain(m)])[..|out|] == out;
  }

  lemma SummaryRepeated(out: seq<Out>, m: Message, n: nat)
    requires Summary(out) != [] && Summary(out)[|Summary(out)| - 1].m == m
    ensures Summary(out + [Repeated(m, n)]) == Summary(out)[|Summary(out)| - 1 := Block(m, n)]
  {
    assert (out + [Repeated(m, n)])[..|out|] == out;
  }

  /** The tail report brings the open block's count up to date. */
  lemma TailCloses(l: Last, out: seq<Out>, r: Lengths)
    requires Tracks(l, out, r)
    ensures Summary(out + Tail(l)) == CappedBlocks(r.blocks)
  {
    if r.open {
      var n := |r.blocks| - 1;
      assert r.blocks[n] in r.blocks;
      var c := Capped(r.blocks[n].n);
      if l.count > 1 && !Milestone(l.count) {
        SummaryRepeated(out, l.message, c);
      } else {
        assert out + [] == out;
        assert Reported(c) == c;
      }
    } else {
      assert out + [] == out;
    }
  }

  /** Counting one more in the open block changes what is expected of its last entry only. */
  lemma ExpectedNext(r: Lengths, m: Message)
    requires r.open && r.blocks != [] && (forall b :: b in r.blocks ==> b.n > 0)
    ensures var n := |r.blocks| - 1;
            var d := r.(blocks := r.blocks[n := Block(m, r.blocks[n].n + 1)]);
            && (forall b :: b in d.blocks ==> b.n > 0) && |Expected(r)| == n + 1
            && Expected(d) == Expected(r)[n := Block(m, Reported(Capped(r.blocks[n].n + 1)))]
  {
    hide Reported, Capped;
  }

  lemma ReportedNext(n: nat)
    requires n > 0
    ensures Reported(Capped(n + 1)) == if n < LIMIT && Milestone(n + 1) then n + 1 else Reported(Capped(n))
  {
  }

  lemma ExpectedLast(r: Lengths)
    requires r.open && r.blocks != [] && (forall b :: b in r.blocks ==> b.n > 0)
    ensures var n := |r.blocks| - 1;
            && r.blocks[n].n > 0 && |Expected(r)| == n + 1
            && Expected(r)[n] == Block(r.blocks[n].m, Reported(Capped(r.blocks[n].n)))
  {
    assert r.blocks[|r.blocks| - 1] in r.blocks;
    hide Reported;
  }

  lemma RepeatTracks(l: Last, out: seq<Out>, r: Lengths)
    requires Tracks(l, out, r) && r.open
    ensures var (l', more) := Process(l, l.message);
            var n := |r.blocks| - 1;
            Tracks(l', out + more, r.(blocks := r.blocks[n := Block(l.message, r.blocks[n].n + 1)]))
  {
    hide Expected, Summary, Reported;
    var n := |r.blocks| - 1;
    ExpectedLast(r);
    ExpectedNext(r, l.message);
    ReportedNext(r.blocks[n].n);
    var (l', more) := Process(l, l.message);
    if more == [] { assert out + more == out; } else { SummaryRepeated(out, l.message, l.count + 1); }
  }

  lemma NewBlockTracks(l: Last, out: seq<Out>, r: Lengths, m: Message)
    requires Tracks(l, out, r) && m != l.message
    ensures var (l', more) := Process(l, m);
            Tracks(l', out + more, Lengths(r.blocks + [Block(m, 1)], true))
  {
    TailCloses(l, out, r);
    SummaryPlain(out + Tail(l), m);
    assert out + (Tail(l) + [Plain(m)]) == out + Tail(l) + [Plain(m)];
    assert CappedBlocks(r.blocks + [Block(m, 1)]) == CappedBlocks(r.blocks) + [Block(m, 1)];
  }

  lemma {:induction false} RunTracks(es: seq<Event>)
    requires NoBlankStarts(es)
    ensures Tracks(Run(es).0, Run(es).1, RunLengths(es))
  {
    if es != [] {
      var prev, e := es[..|es| - 1], es[|es| - 1];
      NoBlankPrefix(es);
      RunTracks(prev);
      OpenIff(prev);
      var (l, out) := Run(prev);
      var r := RunLengths(prev);
      hide Process, Tail, Tracks, Summary;
      match e
      case Timer =>
        TimerTracks(l, out, r);
      case Msg(m) =>
        OpenIsLast(l, out, r);
        if m == l.message { RepeatTracks(l, out, r); } else { NewBlockTracks(l, out, r, m); }
    }
  }

  lemma NoBlankPrefix(es: seq<Event>)
    requires NoBlankStarts(es) && es != []
    ensures NoBlankStarts(es[..|es| - 1]) && !StartsBlank(es, |es| - 1)
  {
    var prev := es[..|es| - 1];
    assert forall i :: 0 <= i < |prev| ==> StartsBlank(prev, i) == StartsBlank(es, i);
  }

  lemma OpenIff(es: seq<Event>)
    ensures RunLengths(es).open == Open(es)
  {
  }

  lemma TimerTracks(l: Last, out: seq<Out>, r: Lengths)
    requires Tracks(l, out, r)
    ensures var (l', more) := TimerTask(l); Tracks(l', out + more, r.(open := false))
  {
    TailCloses(l, out, r);
  }

  lemma OpenIsLast(l: Last, out: seq<Out>, r: Lengths)
    requires Tracks(l, out, r)
    ensures r.open ==> r.blocks != [] && r.blocks[|r.blocks| - 1].m == l.message
    ensures !r.open ==> l.message == BLANK
  {
  }

  /** Which message the state and the blocks speak of, on any input. */
  ghost predicate Follows(l: Last, r: Lengths) {
    && (forall b :: b in r.blocks ==> b.n > 0)
    && (r.open ==> r.blocks != [] && r.blocks[|r.blocks| - 1].m == l.message)
    && (!r.open ==> l.message == BLANK)
  }

  lemma SummaryLength(out: seq<Out>, more: seq<Out>)
    requires forall o :: o in more ==> o.Repeated?
    ensures |Summary(out + more)| == |Summary(out)|
  {
    if more == [] {
      assert out + more == out;
    } else {
      var n := |more| - 1;
      assert (out + more)[..|out + more| - 1] == out + more[..n];
      assert more[n] in more && (out + more)[|out + more| - 1] == more[n];
      SummaryLength(out, more[..n]);
    }
  }

  /** What one event adds to the output: blocks opened, one for a message unlike the last. */
  lemma StepOpens(l: Last, out: seq<Out>, e: Event)
    ensures |Summary(out + Step(l, e).1)| == |Summary(out)| + if e.Msg? && e.m != l.message then 1 else 0
  {
    SummaryLength(out, Tail(l));
    if e.Msg? {
      if e.m == l.message {
        SummaryLength(out, Process(l, e.m).1);
      } else if l.count <= LIMIT {
        SummaryPlain(out + Tail(l), e.m);
        assert out + (Tail(l) + [Plain(e.m)]) == out + Tail(l) + [Plain(e.m)];
      } else {
        SummaryPlain(out, e.m);
        assert [] + [Plain(e.m)] == [Plain(e.m)];
      }
    }
  }

  /** Every block of the input is either opened in the output or starts with a blank message that is swallowed. */
  lemma {:induction false} BlocksAreAccounted(es: seq<Event>)
    ensures Follows(Run(es).0, RunLengths(es))
    ensures |Summary(Run(es).1)| + BlankStarts(es) == |RunLengths(es).blocks|
  {
    if es != [] {
      var prev := es[..|es| - 1];
      BlocksAreAccounted(prev);
      OpenIff(prev);
      StepOpens(Run(prev).0, Run(prev).1, es[|es| - 1]);
      hide Summary, Tail;
    }
  }

  /**
   Nothing is lost: at every moment the output, read back, is the run-length encoding of the input
   with counts capped at 10000, except that a block still open may lag at its last milestone; once
   the timer has ended the last block there is no exception. This is so exactly when no blank message
   starts a block: such a block is missing from the output for good.
   */
  lemma NothingIsLost(es: seq<Event>)
    ensures var out, r := Run(es).1, RunLengths(es);
            && (forall b :: b in r.blocks ==> b.n > 0)
            && (Summary(out) == Expected(r) <==> NoBlankStarts(es))
            && (!r.open ==> Expected(r) == CappedBlocks(r.blocks))
  {
    BlankStartsIff(es);
    BlocksAreAccounted(es);
    if NoBlankStarts(es) { RunTracks(es); }
  }

  /** Every report follows an entry for the same message with a smaller count. */
  ghost predicate ReportsIncrease(out: seq<Out>) {
    forall i :: 0 <= i < |out| && out[i].Repeated? ==> i > 0 && out[i - 1].m == out[i].m && CountOf(out[i - 1]) < out[i].n
  }

  function CountOf(o: Out): nat { if o.Plain? then 1 else o.n }

  /** The last entry of the output speaks of the open block, if there is one. */
  ghost predicate EndsWith(out: seq<Out>, l: Last, open: bool) {
    if open then
      && out != [] && out[|out| - 1].m == l.message
      && 0 < l.count <= LIMIT && CountOf(out[|out| - 1]) == Reported(l.count)
    else l.message == BLANK && l.count <= 1
  }

  /** Adding one entry to the output. */
  lemma SnocIncreasesIff(out: seq<Out>, o: Out)
    requires ReportsIncrease(out)
    ensures ReportsIncrease(out + [o]) <==>
            (o.Repeated? ==> out != [] && out[|out| - 1].m == o.m && CountOf(out[|out| - 1]) < o.n)
  {
    var all, n := out + [o], |out|;
    assert forall i :: 0 <= i < n ==> all[i] == out[i];
    assert all[n] == o && (n > 0 ==> all[n - 1] == out[n - 1]);
  }

  lemma TailIncreases(l: Last, out: seq<Out>, open: bool)
    requires ReportsIncrease(out) && EndsWith(out, l, open)
    ensures ReportsIncrease(out + Tail(l))
  {
    if Tail(l) == [] { assert out + [] == out; } else { SnocIncreasesIff(out, Tail(l)[0]); }
  }

  lemma RepeatIncreases(l: Last, out: seq<Out>)
    requires ReportsIncrease(out) && EndsWith(out, l, true)
    ensures var (l', more) := Process(l, l.message);
            ReportsIncrease(out + more) && EndsWith(out + more, l', true)
  {
    var (l', more) := Process(l, l.message);
    if more == [] { assert out + [] == out; } else { SnocIncreasesIff(out, more[0]); }
  }

  lemma NewBlockIncreases(l: Last, out: seq<Out>, m: Message, open: bool)
    requires ReportsIncrease(out) && EndsWith(out, l, open) && m != l.message
    ensures var (l', more) := Process(l, m);
            ReportsIncrease(out + more) && EndsWith(out + more, l', true)
  {
    assert l.count <= LIMIT;
    hide ReportsIncrease, EndsWith, Tail;
    TailIncreases(l, out, open);
    SnocIncreasesIff(out + Tail(l), Plain(m));
    PlainEnds(out + Tail(l), m);
    assert out + (Tail(l) + [Plain(m)]) == out + Tail(l) + [Plain(m)];
  }

  lemma PlainEnds(out: seq<Out>, m: Message)
    ensures EndsWith(out + [Plain(m)], Last(m, 1), true)
  {
  }

  /** When no blank message starts a block, every report follows an entry for its own block with a smaller count. */
  lemma {:induction false} ReportsStrictlyIncrease(es: seq<Event>)
    requires NoBlankStarts(es)
    ensures ReportsIncrease(Run(es).1) && EndsWith(Run(es).1, Run(es).0, Open(es))
  {
    if es != [] {
      var prev, e := es[..|es| - 1], es[|es| - 1];
      var (l, out) := Run(prev);
      NoBlankPrefix(es);
      ReportsStrictlyIncrease(prev);
      assert !Open(prev) ==> l.message == BLANK;
      hide ReportsIncrease, EndsWith, Process;
      match e
      case Timer =>
        TailIncreases(l, out, Open(prev));
        ClosedEnds(out + Tail(l));
      case Msg(m) =>
        if m == l.message { RepeatIncreases(l, out); } else { NewBlockIncreases(l, out, m, Open(prev)); }
    }
  }

  lemma ClosedEnds(out: seq<Out>)
    ensures EndsWith(out, Last(BLANK, 0), false)
  {
  }

  /** The count that event e makes the log report, or 0 for none. */
  function ReportDue(l: Last, e: Event): nat {
    if e == Msg(l.message) then (if l.count < LIMIT && Milestone(l.count + 1) then l.count + 1 else 0)
    else if 1 < l.count && !Milestone(l.count) && (e.Timer? || l.count <= LIMIT) then l.count
    else 0
  }

  /** A report about the blank message is due, and the last entry is not one for it with a smaller count. */
  predicate Orphans(l: Last, out: seq<Out>, e: Event) {
    && l.message == BLANK && ReportDue(l, e) > 0
    && !(out != [] && out[|out| - 1].m == BLANK && CountOf(out[|out| - 1]) < ReportDue(l, e))
  }

  /** Any other message the state speaks of has its entry last. */
  ghost predicate OthersEnd(l: Last, out: seq<Out>) {
    l.message != BLANK ==> EndsWith(out, l, true)
  }

  lemma StepShape(l: Last, e: Event)
    ensures var n, opens := ReportDue(l, e), e.Msg? && e.m != l.message;
            Step(l, e).1 == (if n > 0 then [Repeated(l.message, n)] else []) + if opens then [Plain(e.m)] else []
    ensures e.Timer? ==> Step(l, e).0.message == BLANK
    ensures e.Msg? ==> Step(l, e).0.message == e.m
  {
  }

  lemma DueIsNews(l: Last, out: seq<Out>, e: Event)
    requires EndsWith(out, l, true) && ReportDue(l, e) > 0
    ensures CountOf(out[|out| - 1]) < ReportDue(l, e)
  {
  }

  lemma StepIncreasesIff(l: Last, out: seq<Out>, e: Event)
    requires OthersEnd(l, out) && ReportsIncrease(out)
    ensures ReportsIncrease(out + Step(l, e).1) <==> !Orphans(l, out, e)
  {
    StepShape(l, e);
    var n := ReportDue(l, e);
    var report := if n > 0 then [Repeated(l.message, n)] else [];
    if n > 0 {
      if l.message != BLANK { DueIsNews(l, out, e); }
      SnocIncreasesIff(out, Repeated(l.message, n));
    } else {
      assert out + [] == out;
    }
    hide Step, ReportDue, EndsWith;
    if e.Msg? && e.m != l.message {
      assert out + (report + [Plain(e.m)]) == (out + report) + [Plain(e.m)];
      PlainChangesNothing(out + report, e.m);
    } else {
      assert report + [] == report;
    }
    hide ReportsIncrease;
  }

  lemma PlainChangesNothing(out: seq<Out>, m: Message)
    ensures ReportsIncrease(out + [Plain(m)]) <==> ReportsIncrease(out)
  {
    var all := out + [Plain(m)];
    assert forall i :: 0 <= i < |out| ==> all[i] == out[i];
  }

  lemma PrefixIncreases(out: seq<Out>, more: seq<Out>)
    requires ReportsIncrease(out + more)
    ensures ReportsIncrease(out)
  {
    var all := out + more;
    assert forall i :: 0 <= i < |out| ==> all[i] == out[i];
  }

  lemma {:induction false} OthersEndAlways(es: seq<Event>)
    ensures OthersEnd(Run(es).0, Run(es).1)
  {
    if es != [] {
      var (l, out) := Run(es[..|es| - 1]);
      OthersEndAlways(es[..|es| - 1]);
      StepOthersEnd(l, out, es[|es| - 1]);
    }
  }

  lemma StepOthersEnd(l: Last, out: seq<Out>, e: Event)
    requires OthersEnd(l, out)
    ensures OthersEnd(Step(l, e).0, out + Step(l, e).1)
  {
    StepShape(l, e);
    if e.Msg? && e.m != BLANK {
      var all := out + Step(l, e).1;
      if Step(l, e).1 == [] { assert all == out; }
    }
  }

  predicate OrphansAt(es: seq<Event>, i: nat)
    requires i < |es|
  {
    Orphans(Run(es[..i]).0, Run(es[..i]).1, es[i])
  }

  ghost predicate NeverOrphans(es: seq<Event>) {
    forall i :: 0 <= i < |es| ==> !OrphansAt(es, i)
  }

  lemma NeverOrphansSnoc(es: seq<Event>)
    requires es != []
    ensures var n := |es| - 1; NeverOrphans(es) <==> NeverOrphans(es[..n]) && !OrphansAt(es, n)
  {
    hide Orphans, Run;
    var n := |es| - 1;
    forall i | 0 <= i < n
      ensures OrphansAt(es[..n], i) == OrphansAt(es, i)
    {
      assert es[..n][..i] == es[..i];
    }
  }

  /**
   The exact condition, event by event: reports follow an entry for the same message with a smaller
   count unless, at some moment, a report about the blank message is due and the last entry is not one
   for it with a smaller count. No other message can break it.
   */
  lemma {:induction false} ReportsIncreaseIff(es: seq<Event>)
    ensures ReportsIncrease(Run(es).1) <==> NeverOrphans(es)
  {
    if es != [] {
      var n := |es| - 1;
      var prev := es[..n];
      var (l, out) := Run(prev);
      ReportsIncreaseIff(prev);
      OthersEndAlways(prev);
      NeverOrphansSnoc(es);
      assert Run(es).1 == out + Step(l, es[n]).1;
      hide ReportsIncrease, Run, Step, Orphans, NeverOrphans, OthersEnd;
      if ReportsIncrease(out) {
        StepIncreasesIff(l, out, es[n]);
      } else if ReportsIncrease(out + Step(l, es[n]).1) {
        PrefixIncreases(out, Step(l, es[n]).1);
      }
    }
  }

  /** When one does, a report can come without an entry: a blank message and a timer write just that. */
  lemma BlankReportIsAnOrphan()
    ensures Run([Msg(BLANK), Timer]).1 == [Repeated(BLANK, 2)] && !ReportsIncrease(Run([Msg(BLANK), Timer]).1)
  {
    var one, two := [Msg(BLANK)], [Msg(BLANK), Timer];
    assert one[..0] == [] && two[..1] == one;
    assert Run([]) == (START, []);
    assert Process(START, BLANK) == (Last(BLANK, 2), []);
    assert [] + Process(START, BLANK).1 == [];
    assert Step(START, one[0]) == Process(START, BLANK);
    assert Run(one) == (Last(BLANK, 2), []);
    assert Tail(Last(BLANK, 2)) == [Repeated(BLANK, 2)];
    var out := Run(two).1;
    assert out[0].Repeated?;
  }

  /** The one message that can be lost: an empty one, just after the start or a timer. */
  lemma OnlyBlankIsSwallowed(l: Last, m: Message)
    requires l.message == BLANK && l.count <= 1
    ensures Process(l, m).1 == [Plain(m)] <==> m != BLANK
    ensures m == BLANK ==> Process(l, m).1 == []
  {
  }

  /** The report made when the log is finalized. */
  function FinalReport(l: Last): seq<Out> {
    if l.count > 1 && l.count != LIMIT then [Repeated(l.message, l.count)] else []
  }

  /** Finalizing repeats a count already reported exactly when the block stopped on a milestone below 10000. */
  lemma FinalityRepeatsIff(es: seq<Event>)
    requires NoBlankStarts(es)
    ensures var (l, out) := Run(es);
            ReportsIncrease(out + FinalReport(l)) <==> l.count <= 1 || l.count == LIMIT || !Milestone(l.count)
  {
    ReportsStrictlyIncrease(es);
    var (l, out) := Run(es);
    if FinalReport(l) == [] {
      assert out + [] == out;
    } else {
      SnocIncreasesIff(out, Repeated(l.message, l.count));
      hide Run, ReportsIncrease;
      assert Reported(l.count) == l.count <==> Milestone(l.count);
    }
  }

  // ---- Eight severities, one output ----

  /** What happens to the whole log: a message of any severity, or the timer of one. */
  datatype LogEvent = Logged(m: Message) | Expired(severity: nat)

  function Severity(m: Message): (i: nat)
    ensures i < 8
  {
    m.kind % 8
  }

  /** What an event is to severity i, if it concerns it. */
  function EventOf(e: LogEvent, i: nat): seq<Event> {
    match e
    case Logged(m) => if Severity(m) == i then [Msg(m)] else []
    case Expired(j) => if j == i then [Timer] else []
  }

  function EventsOf(h: seq<LogEvent>, i: nat): seq<Event> {
    if h == [] then [] else EventsOf(h[..|h| - 1], i) + EventOf(h[|h| - 1], i)
  }

  /** The entries of the output that are about severity i. */
  function OutOf(out: seq<Out>, i: nat): seq<Out> {
    if out == [] then []
    else OutOf(out[..|out| - 1], i) + if Severity(out[|out| - 1].m) == i then [out[|out| - 1]] else []
  }

  lemma {:induction false} OutOfAppend(out: seq<Out>, more: seq<Out>, i: nat, j: nat)
    requires forall o :: o in more ==> Severity(o.m) == i
    ensures OutOf(out + more, j) == OutOf(out, j) + if i == j then more else []
  {
    if more == [] {
      assert out + more == out && OutOf(out, j) + [] == OutOf(out, j);
    } else {
      var n := |more| - 1;
      OutOfAppend(out, more[..n], i, j);
      var all := out + more;
      assert all[..|all| - 1] == out + more[..n];
      assert more[n] in more && all[|all| - 1] == more[n];
      assert OutOf(out, j) + more[..n] + [more[n]] == OutOf(out, j) + more;
    }
  }

  /** The state of severity i never owes a report about another severity. */
  ghost predicate OwnState(l: Last, i: nat) {
    Severity(l.message) == i || (l.message == BLANK && l.count <= 1)
  }

  lemma StepIsOwn(l: Last, e: Event, i: nat)
    requires OwnState(l, i) && (e.Msg? ==> Severity(e.m) == i)
    ensures OwnState(Step(l, e).0, i)
    ensures forall o :: o in Step(l, e).1 ==> Severity(o.m) == i
  {
  }

  lemma {:induction false} RunIsOwn(h: seq<LogEvent>, i: nat)
    ensures OwnState(Run(EventsOf(h, i)).0, i)
  {
    if h != [] {
      var prev, e := h[..|h| - 1], h[|h| - 1];
      RunIsOwn(prev, i);
      EventsOfSnoc(prev, e, i);
      assert h == prev + [e];
      var es := EventsOf(prev, i);
      if EventOf(e, i) != [] {
        RunSnoc(es, EventOf(e, i)[0]);
        StepIsOwn(Run(es).0, EventOf(e, i)[0], i);
        assert EventOf(e, i) == [EventOf(e, i)[0]];
      }
    }
  }

  lemma EventsOfSnoc(h: seq<LogEvent>, e: LogEvent, i: nat)
    ensures EventsOf(h + [e], i) == if EventOf(e, i) == [] then EventsOf(h, i) else EventsOf(h, i) + EventOf(e, i)
  {
    assert (h + [e])[..|h|] == h;
    assert EventsOf(h, i) + [] == EventsOf(h, i);
  }

  lemma RunSnoc(es: seq<Event>, e: Event)
    ensures Run(es + [e]) == (Step(Run(es).0, e).0, Run(es).1 + Step(Run(es).0, e).1)
  {
    assert (es + [e])[..|es|] == es;
  }

  // ---- What one block writes ----

  function Copies(m: Message, n: nat): seq<Event> { seq(n, _ => Msg(m)) }

  /** The reports while a block grows to n messages: at 10, at 100 and at every thousand up to ten thousand. */
  function ReportsUpTo(m: Message, n: nat): seq<Out> {
    if n < 2 then []
    else ReportsUpTo(m, n - 1) + if n <= 10000 && (n == 10 || n == 100 || n % 1000 == 0) then [Repeated(m, n)] else []
  }

  /** The report that closes a block of n messages, unless the count was reported last. */
  function ClosingReport(m: Message, n: nat): seq<Out> {
    if n > 1 && n % 1000 != 0 && n != 100 && n != 10 then [Repeated(m, n)] else []
  }

  lemma ReportsNext(m: Message, n: nat, out: seq<Out>)
    requires n > 0
    ensures var (l, more) := Process(Last(m, if n < 10000 then n else 10000), m);
            && l == Last(m, if n + 1 < 10000 then n + 1 else 10000)
            && out + ReportsUpTo(m, n) + more == out + ReportsUpTo(m, n + 1)
  {
    if n >= 10000 { assert out + ReportsUpTo(m, n) + [] == out + ReportsUpTo(m, n); }
  }

  /** Everything written when n equal messages have followed the events es. */
  ghost function BlockOutput(es: seq<Event>, m: Message, n: nat): seq<Out> {
    var (before, out) := Run(es);
    out + ClosingReport(before.message, before.count) + [Plain(m)] + ReportsUpTo(m, n)
  }

  lemma BlockBegins(es: seq<Event>, m: Message)
    requires Run(es).0.message != m
    ensures Run(es + Copies(m, 1)) == (Last(m, 1), BlockOutput(es, m, 1))
  {
    CountStaysBounded(es);
    assert es + Copies(m, 1) == es + [Msg(m)];
    RunSnoc(es, Msg(m));
    var (before, out) := Run(es);
    hide Run;
    assert BlockOutput(es, m, 1) == out + (ClosingReport(before.message, before.count) + [Plain(m)]);
  }

  /**
   n equal messages, unlike the one before, write what the log owes of the block before, the message
   itself, and the reports of its milestones; the count stops at ten thousand.
   */
  lemma {:induction false} BlockIsWritten(es: seq<Event>, m: Message, n: nat)
    requires n > 0 && Run(es).0.message != m
    ensures Run(es + Copies(m, n)) == (Last(m, if n < 10000 then n else 10000), BlockOutput(es, m, n))
  {
    hide Run, Process, ReportsUpTo, ClosingReport;
    if n == 1 {
      BlockBegins(es, m);
    } else {
      var shorter := es + Copies(m, n - 1);
      assert es + Copies(m, n) == shorter + [Msg(m)];
      BlockIsWritten(es, m, n - 1);
      RunSnoc(shorter, Msg(m));
      var (before, out) := Run(es);
      ReportsNext(m, n - 1, out + ClosingReport(before.message, before.count) + [Plain(m)]);
    }
  }

  /** The timer that ends the block writes the closing report. */
  lemma BlockIsClosed(es: seq<Event>, m: Message, n: nat)
    requires n > 0 && Run(es).0.message != m
    ensures Run(es + Copies(m, n) + [Timer]) ==
            (Last(BLANK, 0), BlockOutput(es, m, n) + ClosingReport(m, if n < 10000 then n else 10000))
  {
    hide Run, Process, BlockOutput;
    BlockIsWritten(es, m, n);
    RunSnoc(es + Copies(m, n), Timer);
  }

  lemma {:induction false} CountStaysBounded(es: seq<Event>)
    ensures Run(es).0.count <= 10000
  {
    if es != [] { CountStaysBounded(es[..|es| - 1]); }
  }

  // ---- Storing messages ----

  datatype Record = Record(time: nat, m: Message)

  function RecordValues(r: Record): seq<Value> {
    [Int(8, false, r.time), Int(1, false, r.m.kind), Blob(r.m.name), Blob(r.m.text), Blob(r.m.note)]
  }

  const RECORD_TYPES := [IntT(8, false), IntT(1, false), BlobT, BlobT, BlobT]

  /** A message stored as a database item is read back unchanged, and the item is used to its last byte. */
  lemma RecordRoundTrip(r: Record)
    requires forall v :: v in RecordValues(r) ==> WellFormed(v)
    ensures DecodeAll(RECORD_TYPES, EncodeAll(RecordValues(r)))
            == Some(Parsed(RecordValues(r), |EncodeAll(RecordValues(r))|))
  {
    RoundTripAll(RecordValues(r));
    assert TypesOf(RecordValues(r)) == RECORD_TYPES;
  }
}

module LogModel {
  import opened Wrappers
  import opened Codec
  import opened DataStreamModel
  import opened LogDuplicates

  /** `rrdItemFromMessage`. */
  method RrdItemFromMessage(r: Record) returns (item: Bytes)
    requires forall v :: v in RecordValues(r) ==> WellFormed(v)
    ensures item == EncodeAll(RecordValues(r))
    ensures DecodeAll(RECORD_TYPES, item) == Some(Parsed(RecordValues(r), |item|))
  {
    ghost var vs := RecordValues(r);
    RecordRoundTrip(r);
    assert forall i :: 0 <= i < 5 ==> WellFormed(vs[i]);
    hide Encode, EncodeAll, DecodeAll, WellFormed;
    EncodeFive(vs);
    var ds := new DataStream();
    ds.WriteInt(8, false, r.time);
    assert ds.data == Encode(vs[0]);
    ds.WriteInt(1, false, r.m.kind);
    ds.WriteBlob(r.m.name);
    ds.WriteBlob(r.m.text);
    ds.WriteBlob(r.m.note);
    item := ds.data;
  }

  lemma EncodeFive(vs: seq<Value>)
    requires |vs| == 5
    ensures EncodeAll(vs) == Encode(vs[0]) + Encode(vs[1]) + Encode(vs[2]) + Encode(vs[3]) + Encode(vs[4])
  {
    hide Encode, EncodeAll;
    EncodeSplit(vs, 0);
    EncodeSplit(vs, 1);
    EncodeSplit(vs, 2);
    EncodeSplit(vs, 3);
    EncodeSplit(vs, 4);
    assert vs[0..] == vs;
    NothingEncoded(vs[5..]);
    Flatten(Encode(vs[0]), Encode(vs[1]), Encode(vs[2]), Encode(vs[3]), Encode(vs[4]));
  }

  lemma NothingEncoded(vs: seq<Value>)
    requires vs == []
    ensures EncodeAll(vs) == []
  {
  }

  lemma Flatten(a: Bytes, b: Bytes, c: Bytes, d: Bytes, e: Bytes)
    ensures a + (b + (c + (d + (e + [])))) == a + b + c + d + e
  {
    assert e + [] == e;
    assert a + (b + (c + (d + e))) == a + b + (c + (d + e));
    assert a + b + (c + (d + e)) == a + b + c + (d + e);
  }

  lemma EncodeSplit(vs: seq<Value>, i: nat)
    requires i < |vs|
    ensures EncodeAll(vs[i..]) == Encode(vs[i]) + EncodeAll(vs[i + 1..])
  {
    assert vs[i..][1..] == vs[i + 1..];
  }

  /** `messageFromRrdItem`: an item that cannot be read becomes an empty message. */
  method MessageFromRrdItem(item: Bytes) returns (r: Record)
    requires |item| <= INT_MAX
    ensures match DecodeAll(RECORD_TYPES, item)
            case None => r == Record(0, BLANK)
            case Some(Parsed(vs, _)) => RecordValues(r) == vs
  {
    hide ParseSize, DecodeBlob, FromLittleEndian, DecodeAll, Prepend, Pow256;
    var ds := new DataStream.Over(item);
    assert item[0..] == item;
    Unread(DecodeAll(RECORD_TYPES, item));
    assert [BlobT] + [] == [BlobT] && [BlobT] + [BlobT] == [BlobT, BlobT] && [BlobT] + [BlobT, BlobT] == [BlobT, BlobT, BlobT];
    assert [IntT(1, false)] + [BlobT, BlobT, BlobT] == RECORD_TYPES[1..] && [IntT(8, false)] + RECORD_TYPES[1..] == RECORD_TYPES;
    ghost var vs: seq<Value>, p: nat := [], 0;
    DecodeNext(vs, p, IntT(8, false), RECORD_TYPES[1..], item);
    var time := ds.ReadInt(8, false, 0);
    vs, p := vs + [Int(8, false, time)], ds.pos;
    DecodeNext(vs, p, IntT(1, false), [BlobT, BlobT, BlobT], item);
    var kind := ds.ReadInt(1, false, 0);
    vs, p := vs + [Int(1, false, kind)], ds.pos;
    DecodeNext(vs, p, BlobT, [BlobT, BlobT], item);
    var name := ds.ReadBlob([]);
    vs, p := vs + [Blob(name)], ds.pos;
    DecodeNext(vs, p, BlobT, [BlobT], item);
    var text := ds.ReadBlob([]);
    vs, p := vs + [Blob(text)], ds.pos;
    DecodeNext(vs, p, BlobT, [], item);
    var note := ds.ReadBlob([]);
    if ds.fail { return Record(0, BLANK); }
    vs := vs + [Blob(note)];
    r := Record(time, Message(kind, name, text, note));
    assert vs == RecordValues(r);
    AllRead(vs, ds.pos, item[ds.pos..]);
  }

  lemma Unread(r: Option<Parsed<seq<Value>>>)
    ensures Prepend([], 0, r) == r
  {
    if r.Some? { assert [] + r.value.value == r.value.value; }
  }

  lemma AllRead(vs: seq<Value>, pos: nat, s: Bytes)
    ensures Prepend(vs, pos, DecodeAll([], s)) == Some(Parsed(vs, pos))
  {
    assert vs + [] == vs;
  }

  const SEVERITIES := 8

  class AbstractLog {
    var lastMessages: seq<Last>
    const hideDuplicates: bool
    var written: seq<Out>
    ghost var history: seq<LogEvent>

    /** With suppression on, each severity's state and its part of the output are the run of its own events. */
    ghost predicate Valid()
      reads this
    {
      && |lastMessages| == SEVERITIES
      && (hideDuplicates ==>
            forall i :: 0 <= i < SEVERITIES ==> (lastMessages[i], OutOf(written, i)) == Run(EventsOf(history, i)))
    }

    constructor (hide_: bool)
      ensures Valid() && hideDuplicates == hide_ && written == [] && history == []
      ensures forall i :: 0 <= i < SEVERITIES ==> lastMessages[i] == START
    {
      lastMessages := seq(SEVERITIES, _ => START);
      hideDuplicates, written, history := hide_, [], [];
    }

    /** So what is proved of one severity's run holds of its part of the log's output. */
    lemma SeverityReadsBack(i: nat)
      requires Valid() && hideDuplicates && i < SEVERITIES
      ensures var r := RunLengths(EventsOf(history, i));
              && (forall b :: b in r.blocks ==> b.n > 0)
              && (Summary(OutOf(written, i)) == Expected(r) <==> NoBlankStarts(EventsOf(history, i)))
      ensures NoBlankStarts(EventsOf(history, i)) ==> ReportsIncrease(OutOf(written, i))
    {
      NothingIsLost(EventsOf(history, i));
      if NoBlankStarts(EventsOf(history, i)) { ReportsStrictlyIncrease(EventsOf(history, i)); }
    }

    method Output(o: Out)
      modifies this`written
      ensures written == old(written) + [o]
    {
      written := written + [o];
    }

    /** `process` with duplicates hidden, for the message's severity. */
    method Count(m: Message)
      requires |lastMessages| == SEVERITIES
      modifies this`lastMessages, this`written
      ensures var i, (l, out) := Severity(m), Process(old(lastMessages[Severity(m)]), m);
              lastMessages == old(lastMessages)[i := l] && written == old(written) + out
      ensures lastMessages[m.kind % 8].message == m
      ensures forall i :: 0 <= i < 8 && i != m.kind % 8 ==> lastMessages[i] == old(lastMessages)[i]
    {
      var i := m.kind % 8;
      var l := lastMessages[i];
      if m == l.message {
        if l.count < LIMIT {
          l := l.(count := l.count + 1);
          if l.count % 1000 == 0 || l.count == 100 || l.count == 10 { Output(Repeated(l.message, l.count)); }
        }
        lastMessages := lastMessages[i := l];
        return;
      }
      if l.count > 1 && l.count <= LIMIT && l.count % 1000 != 0 && l.count != 100 && l.count != 10 {
        Output(Repeated(l.message, l.count));
      }
      Output(Plain(m));
      lastMessages := lastMessages[i := Last(m, 1)];
    }

    method ProcessMessage(m: Message)
      requires Valid()
      modifies this`lastMessages, this`written, this`history
      ensures Valid() && history == old(history) + [Logged(m)]
      ensures var i, (l, out) := Severity(m), Process(old(lastMessages[Severity(m)]), m);
              if hideDuplicates then lastMessages == old(lastMessages)[i := l] && written == old(written) + out
              else lastMessages == old(lastMessages) && written == old(written) + [Plain(m)]
    {
      hide Run, EventsOf, OutOf, Process;
      if hideDuplicates {
        StepsOne(lastMessages, written, history, Logged(m), Severity(m), Msg(m));
        Count(m);
      } else {
        Output(Plain(m));
      }
      history := history + [Logged(m)];
    }

    /** `timerTask`, for the severity whose timer it is. */
    method EndBlock(i: nat)
      requires |lastMessages| == SEVERITIES && i < SEVERITIES
      modifies this`lastMessages, this`written
      ensures var (l, out) := TimerTask(old(lastMessages[i]));
              lastMessages == old(lastMessages)[i := l] && written == old(written) + out
    {
      var l := lastMessages[i];
      if l.count > 1 && l.count % 1000 != 0 && l.count != 100 && l.count != 10 { Output(Repeated(l.message, l.count)); }
      lastMessages := lastMessages[i := Last(BLANK, 0)];
    }

    /** The timer of severity i fires. */
    method TimerEvent(i: nat)
      requires Valid() && hideDuplicates && i < SEVERITIES
      modifies this`lastMessages, this`written, this`history
      ensures Valid() && history == old(history) + [Expired(i)]
      ensures var (l, out) := TimerTask(old(lastMessages[i]));
              lastMessages == old(lastMessages)[i := l] && written == old(written) + out
    {
      StepsOne(lastMessages, written, history, Expired(i), i, Timer);
      hide Run, EventsOf, OutOf, TimerTask;
      EndBlock(i);
      history := history + [Expired(i)];
    }
  }

  /** An event of severity i moves that severity's run on and no other's. */
  lemma StepsOne(last: seq<Last>, written: seq<Out>, h: seq<LogEvent>, e: LogEvent, i: nat, step: Event)
    requires |last| == SEVERITIES && i < SEVERITIES
    requires forall j :: 0 <= j < SEVERITIES ==> (last[j], OutOf(written, j)) == Run(EventsOf(h, j))
    requires EventOf(e, i) == [step] && forall j :: j != i ==> EventOf(e, j) == []
    ensures var (l, out) := Step(last[i], step);
            forall j :: 0 <= j < SEVERITIES ==> (last[i := l][j], OutOf(written + out, j)) == Run(EventsOf(h + [e], j))
  {
    hide Step, Run, EventsOf, OutOf;
    var (l, out) := Step(last[i], step);
    RunIsOwn(h, i);
    assert step.Msg? ==> e.Logged? && step.m == e.m;
    StepIsOwn(last[i], step, i);
    forall j | 0 <= j < SEVERITIES
      ensures (last[i := l][j], OutOf(written + out, j)) == Run(EventsOf(h + [e], j))
    {
      EventsOfSnoc(h, e, j);
      OutOfAppend(written, out, i, j);
      if i == j { RunSnoc(EventsOf(h, i), step); } else { assert OutOf(written, j) + [] == OutOf(written, j); }
    }
  }
}
