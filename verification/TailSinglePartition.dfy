/** On a one-partition topic the tail browser is exact: it reads the log backwards and misses nothing. */
module TailSinglePartition {
  import opened Records
  import opened KafkaLog
  import opened TailPage
  import opened TailPaging
  import opened TailChains

  function Reversed(s: seq<Record>): seq<Record> {
    if s == [] then [] else [s[|s| - 1]] + Reversed(s[..|s| - 1])
  }

  lemma {:induction false} ReversedAt(s: seq<Record>, i: nat)
    requires i < |s|
    ensures |Reversed(s)| == |s| && Reversed(s)[i] == s[|s| - 1 - i]
  {
    if |s| > 1 {
      ReversedAt(s[..|s| - 1], if i == 0 then 0 else i - 1);
    }
  }

  lemma {:induction false} ReversedJoin(s: seq<Record>, t: seq<Record>)
    ensures Reversed(s + t) == Reversed(t) + Reversed(s)
  {
    if t == [] {
      assert s + t == s;
    } else {
      ReversedJoin(s, t[..|t| - 1]);
      assert (s + t)[..|s + t| - 1] == s + t[..|t| - 1];
    }
  }

  lemma {:induction false} ReversedMembers(s: seq<Record>, r: Record)
    ensures r in Reversed(s) <==> r in s
  {
    if s != [] {
      ReversedMembers(s[..|s| - 1], r);
      assert s == s[..|s| - 1] + [s[|s| - 1]];
    }
  }

  lemma {:induction false} ReversedRangeIsNewestFirst(l: Log, p: PartitionId, lo: nat, hi: int)
    requires Monotone(l) && l.begin <= lo
    ensures NewestFirst(Reversed(DataIn(l, p, lo, hi)))
  {
    var s := DataIn(l, p, lo, hi);
    var t := Reversed(s);
    DataInMembers(l, p, lo, hi);
    forall i, j | 0 <= i < j < |t|
      ensures Newer(t[i], t[j])
    {
      ReversedAt(s, 0);
      ReversedAt(s, i);
      ReversedAt(s, j);
      var a, b := s[|s| - 1 - j], s[|s| - 1 - i];
      assert a in s && b in s;
      LaterOffsetIsNewer(l, p, a.offset, b.offset);
    }
  }

  lemma {:induction false} OnlyThisPartition(call: Call, topic: Topic, p: PartitionId, r: Record)
    requires Complete(call, topic) && topic.Keys == {p} && r in Items(call)
    ensures r.partition == p && Emits(call, p)
  {
    CompleteIsSound(call, topic);
    ShownIsFetched(call, r);
    MinOffsetFacts(Items(call), p);
  }

  lemma {:induction false} WindowIsShown(call: Call, topic: Topic, p: PartitionId)
    requires Complete(call, topic) && topic.Keys == {p} && call.limit > 0 && WindowOf(call, topic[p], p) != []
    ensures Emits(call, p)
  {
    CompleteIsSound(call, topic);
    PageIsTopOfPool(call);
    PoolOf(call, topic, p);
    assert WindowOf(call, topic[p], p)[0] in Pool(call.parts, call.fetched);
    TakeKeepsOrder(Newest(Pool(call.parts, call.fetched)), call.limit);
    OnlyThisPartition(call, topic, p, Items(call)[0]);
  }

  /** A page of a one-partition topic is the stretch between the two cursors, backwards. */
  lemma {:induction false} PageIsReversedStretch(call: Call, topic: Topic, p: PartitionId)
    requires Complete(call, topic) && topic.Keys == {p} && Monotone(topic[p]) && call.limit > 0
    requires p in call.cursor && call.cursor[p] >= 0
    ensures 0 <= Next(call)[p] <= call.cursor[p]
    ensures Items(call) == Reversed(DataIn(topic[p], p, Next(call)[p], call.cursor[p]))
  {
    var l := topic[p];
    MovesExactlyWhenWindowHasRecords(call, topic, p);
    PartitionStep(call, topic, p);
    if WindowOf(call, l, p) == [] {
      EmptyWindowsStall(call, topic);
      assert DataIn(l, p, call.cursor[p], call.cursor[p]) == [];
    } else {
      WindowIsShown(call, topic, p);
      StretchMembers(call, topic, p);
      CompleteIsSound(call, topic);
      PageIsTopOfPool(call);
      ReversedRangeIsNewestFirst(l, p, Next(call)[p], call.cursor[p]);
      SameMembersSameOrder(Items(call), Reversed(DataIn(l, p, Next(call)[p], call.cursor[p])));
    }
  }

  lemma {:induction false} ShownIsInStretch(call: Call, topic: Topic, p: PartitionId, r: Record)
    requires Complete(call, topic) && topic.Keys == {p} && r in Items(call)
    ensures p in call.cursor && r.offset >= Next(call)[p] && InRange(topic[p], p, 0, call.cursor[p], r)
  {
    OnlyThisPartition(call, topic, p, r);
    CompleteIsSound(call, topic);
    ShownIsFetched(call, r);
    ShownLiesBetweenCursors(call, r);
    assert ReadInFull(call, topic[p], p);
    DataInMember(topic[p], p, Low(topic[p].begin, High(call.cursor, p), Window(call.limit)), High(call.cursor, p), r);
  }

  lemma {:induction false} StretchMember(call: Call, topic: Topic, p: PartitionId, r: Record)
    requires Complete(call, topic) && topic.Keys == {p} && Monotone(topic[p])
    requires p in call.cursor && Next(call)[p] >= 0 && Emits(call, p)
    ensures r in Items(call) <==> r in DataIn(topic[p], p, Next(call)[p], call.cursor[p])
  {
    DataInMember(topic[p], p, Next(call)[p], call.cursor[p], r);
    if r in Items(call) {
      ShownIsInStretch(call, topic, p, r);
    } else if InRange(topic[p], p, Next(call)[p], call.cursor[p], r) {
      PartitionStep(call, topic, p);
      ShownHasRecord(call, topic, p, r.offset);
    }
  }

  lemma {:induction false} StretchMembers(call: Call, topic: Topic, p: PartitionId)
    requires Complete(call, topic) && topic.Keys == {p} && Monotone(topic[p])
    requires p in call.cursor && Next(call)[p] >= 0 && Emits(call, p)
    ensures forall r :: r in Items(call) <==> r in Reversed(DataIn(topic[p], p, Next(call)[p], call.cursor[p]))
  {
    forall r
      ensures r in Items(call) <==> r in Reversed(DataIn(topic[p], p, Next(call)[p], call.cursor[p]))
    {
      ReversedMembers(DataIn(topic[p], p, Next(call)[p], call.cursor[p]), r);
      StretchMember(call, topic, p, r);
    }
  }

  lemma {:induction false} StretchOutlivesAppends(l: Log, k: Log, p: PartitionId, lo: nat, hi: int)
    requires l.slots <= k.slots && hi <= |l.slots|
    ensures DataIn(l, p, lo, hi) == DataIn(k, p, lo, hi)
    decreases hi - lo
  {
    if lo < hi {
      assert l.slots[lo] == k.slots[lo];
      StretchOutlivesAppends(l, k, p, lo + 1, hi);
    }
  }

  /** A chain on a one-partition topic with a real cursor. */
  ghost predicate OnePartitionRun(run: seq<Step>, p: PartitionId) {
    && run != [] && Chained(run) && Living(run) && AllComplete(run)
    && Grounded(run[0].call.cursor, run[0].topic) && p in run[0].call.cursor && run[0].call.cursor[p] >= 0
    && forall i | 0 <= i < |run| :: run[i].topic.Keys == {p} && run[i].call.limit > 0
  }

  /** Page `n` is a stretch of the log the chain started from, between two levels. */
  ghost predicate IsStretch(pages: seq<seq<Record>>, levels: seq<int>, n: nat, l: Log, p: PartitionId)
    requires n < |pages| == |levels| - 1
  {
    levels[n] >= 0 ==> 0 <= levels[n + 1] <= levels[n] && pages[n] == Reversed(DataIn(l, p, levels[n + 1], levels[n]))
  }

  lemma {:induction false} PageIsStretch(run: seq<Step>, n: nat, p: PartitionId)
    requires OnePartitionRun(run, p) && n < |run|
    ensures IsStretch(PagesOf(run), Levels(run, p), n, run[0].topic[p], p)
  {
    LevelsStep(run, n, p);
    CursorIsKept(run, p);
    if run[n].call.cursor[p] >= 0 {
      NthPage(run, n, p);
    }
  }

  lemma {:induction false} NthPage(run: seq<Step>, n: nat, p: PartitionId)
    requires OnePartitionRun(run, p) && n < |run| && p in run[n].call.cursor && run[n].call.cursor[p] >= 0
    ensures 0 <= Next(run[n].call)[p] <= run[n].call.cursor[p]
    ensures Items(run[n].call) == Reversed(DataIn(run[0].topic[p], p, Next(run[n].call)[p], run[n].call.cursor[p]))
  {
    var step, l := run[n], run[0].topic[p];
    PageIsReversedStretch(step.call, step.topic, p);
    TopicsEvolve(run, 0, n);
    if n > 0 {
      CursorsFall(run, 0, n);
      MovesDown(run[0].call);
    }
    StretchOutlivesAppends(l, step.topic[p], p, Next(step.call)[p], step.call.cursor[p]);
  }

  lemma {:induction false} StretchesJoin(pages: seq<seq<Record>>, levels: seq<int>, n: nat, l: Log, p: PartitionId)
    requires |pages| == |levels| - 1 && n <= |pages| && levels[0] >= 0
    requires forall i | 0 <= i < |pages| :: IsStretch(pages, levels, i, l, p)
    ensures 0 <= levels[n] <= levels[0]
    ensures Flatten(pages[..n]) == Reversed(DataIn(l, p, levels[n], levels[0]))
  {
    if n == 0 {
      assert DataIn(l, p, levels[0], levels[0]) == [];
    } else {
      StretchesJoin(pages, levels, n - 1, l, p);
      assert IsStretch(pages, levels, n - 1, l, p);
      assert pages[..n][..n - 1] == pages[..n - 1];
      DataInSplit(l, p, levels[n], levels[n - 1], levels[0]);
      ReversedJoin(DataIn(l, p, levels[n], levels[n - 1]), DataIn(l, p, levels[n - 1], levels[0]));
    }
  }

  lemma {:induction false} AllAreStretches(run: seq<Step>, p: PartitionId)
    requires OnePartitionRun(run, p)
    ensures forall i | 0 <= i < |run| :: IsStretch(PagesOf(run), Levels(run, p), i, run[0].topic[p], p)
  {
    forall i | 0 <= i < |run|
      ensures IsStretch(PagesOf(run), Levels(run, p), i, run[0].topic[p], p)
    {
      PageIsStretch(run, i, p);
    }
  }

  lemma {:induction false} AllPages(pages: seq<seq<Record>>, levels: seq<int>, l: Log, p: PartitionId)
    requires |pages| == |levels| - 1 && levels[0] >= 0
    requires forall i | 0 <= i < |pages| :: IsStretch(pages, levels, i, l, p)
    ensures 0 <= levels[|pages|] <= levels[0]
    ensures Flatten(pages) == Reversed(DataIn(l, p, levels[|pages|], levels[0]))
  {
    StretchesJoin(pages, levels, |pages|, l, p);
    assert pages[..|pages|] == pages;
  }

  /**
   * Pages shown so far, laid end to end, are the log from the first cursor backwards to the present one: no gap, no
   * repeat.
   */
  lemma {:induction false} PagesAreReversedLog(run: seq<Step>, p: PartitionId)
    requires OnePartitionRun(run, p)
    ensures 0 <= High(Final(run), p) <= run[0].call.cursor[p]
    ensures Flatten(PagesOf(run)) == Reversed(DataIn(run[0].topic[p], p, High(Final(run), p), run[0].call.cursor[p]))
  {
    AllAreStretches(run, p);
    AllPages(PagesOf(run), Levels(run, p), run[0].topic[p], p);
  }

  // ---------------------------------------------------------------- how many calls it takes

  /** A page of a dense log spans as many offsets as it has records. */
  lemma {:induction false} DensePageSpan(call: Call, topic: Topic, p: PartitionId)
    requires Complete(call, topic) && topic.Keys == {p} && Monotone(topic[p]) && call.limit > 0
    requires p in call.cursor && topic[p].begin <= call.cursor[p] && Dense(topic[p], topic[p].begin, call.cursor[p])
    ensures topic[p].begin <= Next(call)[p] <= call.cursor[p] && |Items(call)| == call.cursor[p] - Next(call)[p]
  {
    MovesExactlyWhenWindowHasRecords(call, topic, p);
    PageIsReversedStretch(call, topic, p);
    DenseCount(topic[p], p, Next(call)[p], call.cursor[p]);
    ReversedLength(DataIn(topic[p], p, Next(call)[p], call.cursor[p]));
  }

  lemma {:induction false} DensePageSize(call: Call, topic: Topic, p: PartitionId)
    requires Complete(call, topic) && topic.Keys == {p} && call.limit > 0
    requires p in call.cursor && topic[p].begin < call.cursor[p] && Dense(topic[p], topic[p].begin, call.cursor[p])
    ensures var size := call.cursor[p] - Low(topic[p].begin, call.cursor[p], Window(call.limit));
      |Items(call)| == if call.limit < size then call.limit else size
  {
    DenseCount(topic[p], p, Low(topic[p].begin, call.cursor[p], Window(call.limit)), call.cursor[p]);
    assert ReadInFull(call, topic[p], p);
    PageFillsUp(call, topic, p);
  }

  /** On a dense log a call lowers the cursor by a page, or to the begin offset. */
  lemma {:induction false} DensePageStep(call: Call, topic: Topic, p: PartitionId)
    requires Complete(call, topic) && topic.Keys == {p} && Monotone(topic[p]) && call.limit > 0
    requires p in call.cursor && topic[p].begin <= call.cursor[p] && Dense(topic[p], topic[p].begin, call.cursor[p])
    ensures Next(call)[p] == Max(topic[p].begin, call.cursor[p] - call.limit)
  {
    DensePageSpan(call, topic, p);
    if topic[p].begin < call.cursor[p] {
      DensePageSize(call, topic, p);
    }
  }

  lemma {:induction false} ReversedLength(s: seq<Record>)
    ensures |Reversed(s)| == |s|
  {
    if s != [] {
      ReversedAt(s, 0);
    }
  }

  lemma {:induction false} PageFillsUp(call: Call, topic: Topic, p: PartitionId)
    requires Complete(call, topic) && topic.Keys == {p} && p in call.fetched
    ensures |Items(call)| == if call.limit < |WindowOf(call, topic[p], p)| then call.limit
      else |WindowOf(call, topic[p], p)|
  {
    CompleteIsSound(call, topic);
    PageIsTopOfPool(call);
    TakeKeepsOrder(Newest(Pool(call.parts, call.fetched)), call.limit);
    OnePartitionPool(call, topic, p, call.parts);
    assert ReadInFull(call, topic[p], p);
  }

  lemma {:induction false} OnePartitionPool(call: Call, topic: Topic, p: PartitionId, parts: seq<PartitionInfo>)
    requires Lists(parts, topic) && topic.Keys == {p} && p in call.fetched
    ensures Pool(parts, call.fetched) == call.fetched[p]
  {
  }

  lemma {:induction false} OneMorePage(begin: int, start: int, n: nat, limit: nat)
    ensures Max(begin, Max(begin, start - n * limit) - limit) == Max(begin, start - (n + 1) * limit)
  {
  }

  /** A one-partition chain over a log at rest, dense below the first cursor, with one page size. */
  ghost predicate AtRest(run: seq<Step>, p: PartitionId, l: Log, limit: nat) {
    && OnePartitionRun(run, p) && limit > 0
    && (forall i | 0 <= i < |run| :: run[i].topic == map[p := l] && run[i].call.limit == limit)
    && l.begin <= run[0].call.cursor[p] && Dense(l, l.begin, run[0].call.cursor[p])
  }

  ghost predicate PageDown(levels: seq<int>, i: nat, begin: int, limit: nat)
    requires i < |levels| - 1
  {
    begin <= levels[i] <= levels[0] ==> levels[i + 1] == Max(begin, levels[i] - limit)
  }

  lemma {:induction false} LevelAfter(levels: seq<int>, n: nat, begin: int, limit: nat)
    requires n < |levels| && begin <= levels[0]
    requires forall i | 0 <= i < |levels| - 1 :: PageDown(levels, i, begin, limit)
    ensures levels[n] == Max(begin, levels[0] - n * limit)
  {
    if n > 0 {
      LevelAfter(levels, n - 1, begin, limit);
      assert (n - 1) * limit >= 0;
      assert PageDown(levels, n - 1, begin, limit);
      OneMorePage(begin, levels[0], n - 1, limit);
    }
  }

  lemma {:induction false} CallAtRest(run: seq<Step>, n: nat, p: PartitionId, l: Log, limit: nat)
    requires AtRest(run, p, l, limit) && n < |run|
    ensures run[n].topic == map[p := l] && run[n].call.limit == limit && Complete(run[n].call, map[p := l]) &&
      Monotone(l)
    ensures p in run[n].call.cursor && Dense(l, l.begin, run[0].call.cursor[p])
  {
    CursorIsKept(run, p);
    assert p in run[n].topic;
  }

  /** One page down on a log at rest. */
  lemma {:induction false} CallPagesDown(call: Call, p: PartitionId, l: Log, limit: nat, start: int)
    requires Complete(call, map[p := l]) && Monotone(l) && call.limit == limit > 0 && p in call.cursor
    requires Dense(l, l.begin, start) && l.begin <= call.cursor[p] <= start
    ensures p in Next(call) && Next(call)[p] == Max(l.begin, call.cursor[p] - limit)
  {
    DensePageStep(call, map[p := l], p);
  }

  lemma {:induction false} StepPagesDown(run: seq<Step>, n: nat, p: PartitionId, l: Log, limit: nat)
    requires AtRest(run, p, l, limit) && n < |run|
    requires l.begin <= High(run[n].call.cursor, p) <= High(run[0].call.cursor, p)
    ensures High(Next(run[n].call), p) == Max(l.begin, High(run[n].call.cursor, p) - limit)
  {
    CallAtRest(run, n, p, l, limit);
    CallPagesDown(run[n].call, p, l, limit, run[0].call.cursor[p]);
  }

  lemma {:induction false} PageDownBetween(levels: seq<int>, i: nat, begin: int, limit: nat, start: int, level: int,
        next: int)
    requires i < |levels| - 1 && levels[0] == start && levels[i] == level && levels[i + 1] == next
    requires begin <= level <= start ==> next == Max(begin, level - limit)
    ensures PageDown(levels, i, begin, limit)
  {
  }

  lemma {:induction false} DenseStep(run: seq<Step>, n: nat, p: PartitionId, l: Log, limit: nat)
    requires AtRest(run, p, l, limit) && n < |run|
    ensures PageDown(Levels(run, p), n, l.begin, limit)
  {
    var start, level, next := High(run[0].call.cursor, p), High(run[n].call.cursor, p), High(Next(run[n].call), p);
    assert l.begin <= level <= start ==> next == Max(l.begin, level - limit) by {
      if l.begin <= level <= start {
        StepPagesDown(run, n, p, l, limit);
      }
    }
    LevelsStep(run, n, p);
    PageDownBetween(Levels(run, p), n, l.begin, limit, start, level, next);
  }

  /** On a dense log at rest, `has_more` turns false exactly with call number n / limit, rounded up. */
  lemma {:induction false} ExhaustedAfterCeilCalls(run: seq<Step>, p: PartitionId, l: Log, limit: nat)
    requires AtRest(run, p, l, limit)
    ensures !HasMore(run[|run| - 1].call) <==> run[0].call.cursor[p] - l.begin <= |run| * limit
  {
    FinalLevel(run, p, l, limit);
    assert run[|run| - 1].topic == map[p := l];
    OnePartitionHasMore(run[|run| - 1].call, run[|run| - 1].topic, p);
  }

  lemma {:induction false} FinalLevel(run: seq<Step>, p: PartitionId, l: Log, limit: nat)
    requires AtRest(run, p, l, limit)
    ensures High(Final(run), p) == Max(l.begin, run[0].call.cursor[p] - |run| * limit)
  {
    var levels := Levels(run, p);
    forall i | 0 <= i < |levels| - 1
      ensures PageDown(levels, i, l.begin, limit)
    {
      DenseStep(run, i, p, l, limit);
    }
    LevelAfter(levels, |run|, l.begin, limit);
  }

  lemma {:induction false} OnePartitionHasMore(call: Call, topic: Topic, p: PartitionId)
    requires Lists(call.parts, topic) && topic.Keys == {p}
    ensures HasMore(call) <==> High(Next(call), p) > topic[p].begin
  {
  }
}
