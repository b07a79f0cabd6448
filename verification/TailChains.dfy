/** Chains of tail calls: each call uses the cursor the previous one returned, while the log moves underneath. */
module TailChains {
  import opened Records
  import opened KafkaLog
  import opened ForwardFetch
  import opened TailCursor
  import opened TailPage
  import opened TailPaging
  import opened Runs

  /** One call of a chain and the topic at the time. */
  datatype Step = Step(topic: Topic, call: Call)

  ghost predicate Chained(run: seq<Step>) {
    forall i | 0 <= i < |run| - 1 :: run[i + 1].call.cursor == Next(run[i].call)
  }

  /** Between calls producers append and retention trims. */
  ghost predicate Living(run: seq<Step>) {
    forall i | 0 <= i < |run| - 1 :: Evolves(run[i].topic, run[i + 1].topic)
  }

  /** The cursor points at offsets the log has reached. */
  ghost predicate Grounded(c: Cursor, topic: Topic) {
    forall p | p in c :: p in topic && c[p] <= |topic[p].slots|
  }

  ghost predicate AllSound(run: seq<Step>) {
    forall i | 0 <= i < |run| :: Sound(run[i].call)
  }

  /** What the call works on came from polls the broker answered from the topic, completely or not. */
  ghost predicate FetchedBy(call: Call, polls: map<PartitionId, seq<Poll>>, topic: Topic) {
    && DistinctPartitions(call.parts) && BrokerDelivers(call.parts, call.cursor, call.limit, polls, topic)
    && call.fetched == Fetched(call.parts, call.cursor, Window(call.limit), polls)
  }

  ghost predicate AllFetched(run: seq<Step>) {
    forall i | 0 <= i < |run| :: exists polls :: FetchedBy(run[i].call, polls, run[i].topic)
  }

  ghost predicate AllRead(run: seq<Step>) {
    forall i | 0 <= i < |run| :: Complete(run[i].call, run[i].topic)
  }

  ghost predicate AllComplete(run: seq<Step>) {
    forall i | 0 <= i < |run| :: Complete(run[i].call, run[i].topic) && AllMonotone(run[i].topic)
  }

  ghost predicate AllFilled(run: seq<Step>) {
    forall i | 0 <= i < |run| :: Filled(run[i].call, run[i].topic)
  }

  ghost function PagesOf(run: seq<Step>): seq<seq<Record>> {
    seq(|run|, i requires 0 <= i < |run| => Items(run[i].call))
  }

  function Flatten(pages: seq<seq<Record>>): seq<Record> {
    if pages == [] then [] else Flatten(pages[..|pages| - 1]) + pages[|pages| - 1]
  }

  ghost function Final(run: seq<Step>): Cursor
    requires run != []
  {
    Next(run[|run| - 1].call)
  }

  /** Whatever their polls, the calls of a run are sound. */
  lemma {:induction false} FetchedRunsAreSound(run: seq<Step>)
    requires AllFetched(run)
    ensures AllSound(run)
  {
    forall i | 0 <= i < |run|
      ensures Sound(run[i].call)
    {
      var call, topic := run[i].call, run[i].topic;
      var polls :| FetchedBy(call, polls, topic);
      FetchesAreSound(call.parts, call.cursor, call.limit, polls, topic);
    }
  }

  // ---------------------------------------------------------------- no record twice

  /** Cursors only fall along a chain. */
  lemma {:induction false} CursorsFall(run: seq<Step>, i: nat, j: nat)
    requires Chained(run) && i < j < |run|
    ensures run[j].call.cursor.Keys == run[i].call.cursor.Keys
    ensures forall p | p in run[j].call.cursor :: run[j].call.cursor[p] <= Next(run[i].call)[p]
    decreases j - i
  {
    assert run[j].call.cursor == Next(run[j - 1].call);
    if i < j - 1 {
      CursorsFall(run, i, j - 1);
    }
  }

  /** Whatever the timestamps, the fetches, the appends and the trims: chained pages share no (partition, offset). */
  lemma {:induction false} NoRecordOnTwoPages(run: seq<Step>, i: nat, j: nat, r: Record, s: Record)
    requires Chained(run) && AllSound(run) && i < j < |run|
    requires r in Items(run[i].call) && s in Items(run[j].call)
    ensures !SameSlot(r, s)
  {
    CursorsFall(run, i, j);
    ShownLiesBetweenCursors(run[i].call, r);
    ShownLiesBetweenCursors(run[j].call, s);
  }

  lemma {:induction false} FlattenMembers(pages: seq<seq<Record>>, r: Record)
    ensures r in Flatten(pages) <==> exists i | 0 <= i < |pages| :: r in pages[i]
  {
    if pages != [] {
      var init := pages[..|pages| - 1];
      FlattenMembers(init, r);
      assert forall i | 0 <= i < |init| :: init[i] == pages[i];
    }
  }

  ghost predicate PagesApart(pages: seq<seq<Record>>) {
    && (forall i | 0 <= i < |pages| :: Distinct(pages[i]))
    && (forall i, j, r, s | 0 <= i < j < |pages| && r in pages[i] && s in pages[j] :: !SameSlot(r, s))
  }

  lemma {:induction false} FlattenDistinct(pages: seq<seq<Record>>)
    requires PagesApart(pages)
    ensures Distinct(Flatten(pages))
  {
    if pages != [] {
      var init, last := pages[..|pages| - 1], pages[|pages| - 1];
      assert forall i | 0 <= i < |init| :: init[i] == pages[i];
      FlattenDistinct(init);
      forall r, s | r in Flatten(init) && s in last
        ensures !SameSlot(r, s)
      {
        FlattenMembers(init, r);
      }
      JoinDistinct(Flatten(init), last);
    }
  }

  lemma {:induction false} PagesAreApart(run: seq<Step>)
    requires Chained(run) && AllSound(run)
    ensures PagesApart(PagesOf(run))
  {
    var pages := PagesOf(run);
    forall i | 0 <= i < |pages|
      ensures Distinct(pages[i])
    {
      PageIsDistinct(run[i].call);
    }
    forall i, j, r, s | 0 <= i < j < |pages| && r in pages[i] && s in pages[j]
      ensures !SameSlot(r, s)
    {
      NoRecordOnTwoPages(run, i, j, r, s);
    }
  }

  // ---------------------------------------------------------------- newest first across pages

  lemma {:induction false} TopicsEvolve(run: seq<Step>, i: nat, j: nat)
    requires Living(run) && i <= j < |run|
    ensures Evolves(run[i].topic, run[j].topic)
    decreases j - i
  {
    if i < j {
      TopicsEvolve(run, i, j - 1);
      EvolvesTransitive(run[i].topic, run[j - 1].topic, run[j].topic);
    }
  }

  /** What is unread later was unread before, and the same record. */
  lemma {:induction false} UnreadBefore(t: Topic, u: Topic, c: Cursor, d: Cursor, r: Record)
    requires Evolves(t, u) && Grounded(c, t) && d.Keys == c.Keys && forall p | p in d :: d[p] <= c[p]
    requires IsUnread(d, u, r)
    ensures IsUnread(c, t, r)
  {
  }

  lemma {:induction false} GroundedLater(run: seq<Step>, i: nat)
    requires Chained(run) && Living(run) && i < |run| && Grounded(run[0].call.cursor, run[0].topic)
    ensures Grounded(run[i].call.cursor, run[i].topic)
  {
    if i > 0 {
      CursorsFall(run, 0, i);
      TopicsEvolve(run, 0, i);
      forall p | p in run[i].call.cursor
        ensures p in run[i].topic && run[i].call.cursor[p] <= |run[i].topic[p].slots|
      {
        assert run[0].topic[p].slots <= run[i].topic[p].slots;
      }
    }
  }

  lemma {:induction false} LaterShownIsUnreadNow(run: seq<Step>, i: nat, j: nat, y: Record)
    requires Chained(run) && Living(run) && run != [] && Grounded(run[0].call.cursor, run[0].topic)
    requires i < j < |run| && Complete(run[j].call, run[j].topic) && y in Items(run[j].call)
    ensures IsUnread(run[i].call.cursor, run[i].topic, y)
  {
    ItemsComeFromPool(run[j].call);
    PoolIsUnread(run[j].call, run[j].topic, y);
    CursorsFall(run, i, j);
    TopicsEvolve(run, i, j);
    GroundedLater(run, i);
    MovesDown(run[i].call);
    UnreadBefore(run[i].topic, run[j].topic, run[i].call.cursor, run[j].call.cursor, y);
  }

  lemma {:induction false} MovesDown(call: Call)
    ensures forall p | p in call.cursor :: Next(call)[p] <= call.cursor[p]
  {
  }

  lemma {:induction false} EarlierPagesAreNewer(run: seq<Step>, i: nat, j: nat, x: Record, y: Record)
    requires Chained(run) && Living(run) && AllComplete(run) && AllFilled(run) && AllSound(run)
    requires run != [] && Grounded(run[0].call.cursor, run[0].topic)
    requires i < j < |run| && x in Items(run[i].call) && y in Items(run[j].call)
    ensures Newer(x, y)
  {
    LaterShownIsUnreadNow(run, i, j, y);
    if y in Items(run[i].call) {
      NoRecordOnTwoPages(run, i, j, y, y);
    }
    PageBeatsUnread(run[i].call, run[i].topic, x, y);
  }

  lemma {:induction false} FlattenNewestFirst(pages: seq<seq<Record>>)
    requires forall i | 0 <= i < |pages| :: NewestFirst(pages[i])
    requires forall i, j, x, y | 0 <= i < j < |pages| && x in pages[i] && y in pages[j] :: Newer(x, y)
    ensures NewestFirst(Flatten(pages))
  {
    if pages != [] {
      var init, last := pages[..|pages| - 1], pages[|pages| - 1];
      assert forall i | 0 <= i < |init| :: init[i] == pages[i];
      FlattenNewestFirst(init);
      forall x, y | x in Flatten(init) && y in last
        ensures Newer(x, y)
      {
        FlattenMembers(init, x);
      }
    }
  }

  /** The pages of a chain, laid end to end, are strictly newest first, whatever was appended or trimmed in between. */
  lemma {:induction false} PagesAreNewestFirst(run: seq<Step>)
    requires Chained(run) && Living(run) && AllComplete(run) && AllFilled(run)
    requires run != [] ==> Grounded(run[0].call.cursor, run[0].topic)
    ensures NewestFirst(Flatten(PagesOf(run)))
  {
    var pages := PagesOf(run);
    CompleteRunsAreSound(run);
    forall i | 0 <= i < |pages|
      ensures NewestFirst(pages[i])
    {
      PageIsTopOfPool(run[i].call);
    }
    forall i, j, x, y | 0 <= i < j < |pages| && x in pages[i] && y in pages[j]
      ensures Newer(x, y)
    {
      EarlierPagesAreNewer(run, i, j, x, y);
    }
    FlattenNewestFirst(pages);
  }

  lemma {:induction false} CompleteRunsAreSound(run: seq<Step>)
    requires AllComplete(run)
    ensures AllSound(run)
  {
    forall i | 0 <= i < |run|
      ensures Sound(run[i].call)
    {
      CompleteIsSound(run[i].call, run[i].topic);
    }
  }

  // ---------------------------------------------------------------- the ledger

  ghost function ShownAt(p: PartitionId, o: int): Step -> bool {
    (step: Step) => Shows(step.call, p, o)
  }

  /** On how many pages the record at offset `o` stands. */
  ghost function Emissions(run: seq<Step>, p: PartitionId, o: int): nat {
    Count(ShownAt(p, o), run)
  }

  /** The cursor passed over offset `o` on a page without records of its partition. */
  ghost predicate Drops(call: Call, p: PartitionId, o: int) {
    !Emits(call, p) && p in call.cursor && Next(call)[p] <= o < call.cursor[p]
  }

  ghost function DroppedAt(p: PartitionId, o: int): Step -> bool {
    (step: Step) => Drops(step.call, p, o)
  }

  /** How often the record at offset `o` was passed over unseen. */
  ghost function Omissions(run: seq<Step>, p: PartitionId, o: int): nat {
    Count(DroppedAt(p, o), run)
  }

  /** The cursors a chain goes through, from the first call's to the one the last call returns. */
  ghost function Levels(run: seq<Step>, p: PartitionId): (levels: seq<int>)
    requires run != []
    ensures |levels| == |run| + 1 && levels[|run|] == High(Final(run), p)
    ensures forall i | 0 <= i < |run| :: levels[i] == High(run[i].call.cursor, p)
  {
    seq(|run| + 1, i requires 0 <= i <= |run| => High(if i < |run| then run[i].call.cursor else Final(run), p))
  }

  /**
   * From below its level, an offset goes to exactly one of shown, dropped, still below; any other offset is left
   * alone.
   */
  ghost predicate Settles(shown: bool, dropped: bool, level: int, next: int, o: int) {
    if o < level then (if shown then 1 else 0) + (if dropped then 1 else 0) + (if o < next then 1 else 0) == 1
    else !shown && !dropped && o >= next
  }

  lemma {:induction false} OneCallSettles(step: Step, p: PartitionId, o: int)
    requires Complete(step.call, step.topic) && p in step.topic && Monotone(step.topic[p]) && p in step.call.cursor
    requires HasRecord(step.topic[p], o)
    ensures Settles(Shows(step.call, p, o), Drops(step.call, p, o), step.call.cursor[p], Next(step.call)[p], o)
  {
    PartitionStep(step.call, step.topic, p);
  }

  lemma {:induction false} SettlingAddsUp<T>(shown: T -> bool, dropped: T -> bool, run: seq<T>, levels: seq<int>,
        o: int)
    requires |levels| == |run| + 1
    requires forall i | 0 <= i < |run| :: Settles(shown(run[i]), dropped(run[i]), levels[i], levels[i + 1], o)
    ensures Count(shown, run) + Count(dropped, run) + (if o < levels[|run|] then 1 else 0) ==
      if o < levels[0] then 1 else 0
  {
    if run != [] {
      SettlingAddsUp(shown, dropped, run[..|run| - 1], levels[..|run|], o);
      assert Settles(shown(run[|run| - 1]), dropped(run[|run| - 1]), levels[|run| - 1], levels[|run|], o);
    }
  }

  lemma {:induction false} StaysARecord(run: seq<Step>, i: nat, p: PartitionId, o: nat)
    requires Living(run) && i < |run| && p in run[0].topic && HasRecord(run[0].topic[p], o)
    ensures p in run[i].topic && HasRecord(run[i].topic[p], o)
  {
    TopicsEvolve(run, 0, i);
    assert run[0].topic[p].slots <= run[i].topic[p].slots;
  }

  /**
   * Conservation: after any chain of calls each record that was below its cursor at the start is in exactly one place:
   * shown on one page, still below its cursor, or passed over on one page that shows nothing of its partition.
   */
  lemma {:induction false} Ledger(run: seq<Step>, p: PartitionId, o: nat)
    requires run != [] && Chained(run) && Living(run) && AllComplete(run)
    requires p in run[0].topic && HasRecord(run[0].topic[p], o)
    requires p in run[0].call.cursor && o < run[0].call.cursor[p]
    ensures p in Final(run)
    ensures Emissions(run, p, o) + Omissions(run, p, o) + (if o < Final(run)[p] then 1 else 0) == 1
  {
    var shown, dropped, levels := ShownAt(p, o), DroppedAt(p, o), Levels(run, p);
    forall i | 0 <= i < |run|
      ensures Settles(shown(run[i]), dropped(run[i]), levels[i], levels[i + 1], o)
    {
      LedgerStep(run, i, p, o);
    }
    SettlingAddsUp(shown, dropped, run, levels, o);
    CursorIsKept(run, p);
  }

  lemma {:induction false} CursorIsKept(run: seq<Step>, p: PartitionId)
    requires run != [] && Chained(run) && p in run[0].call.cursor
    ensures p in Final(run) && forall i | 0 <= i < |run| :: p in run[i].call.cursor
  {
    forall i | 0 <= i < |run|
      ensures p in run[i].call.cursor
    {
      if i > 0 {
        CursorsFall(run, 0, i);
      }
    }
  }

  lemma {:induction false} LedgerStep(run: seq<Step>, i: nat, p: PartitionId, o: nat)
    requires Chained(run) && Living(run) && AllComplete(run) && i < |run|
    requires p in run[0].topic && HasRecord(run[0].topic[p], o) && p in run[0].call.cursor
    ensures Settles(Shows(run[i].call, p, o), Drops(run[i].call, p, o), Levels(run, p)[i], Levels(run, p)[i + 1], o)
  {
    CursorIsKept(run, p);
    StaysARecord(run, i, p, o);
    OneCallSettles(run[i], p, o);
    LevelsStep(run, i, p);
  }

  lemma {:induction false} LevelsStep(run: seq<Step>, i: nat, p: PartitionId)
    requires Chained(run) && i < |run|
    ensures Levels(run, p)[i] == High(run[i].call.cursor, p) && Levels(run, p)[i + 1] == High(Next(run[i].call), p)
  {
  }

  /** When `has_more` has turned false, a retained record was shown exactly once unless some call dropped it. */
  lemma {:induction false} NothingLeftMeansShownOrDropped(run: seq<Step>, p: PartitionId, o: nat)
    requires run != [] && Chained(run) && Living(run) && AllComplete(run)
    requires p in run[0].topic && HasRecord(run[0].topic[p], o)
    requires p in run[0].call.cursor && o < run[0].call.cursor[p]
    requires !HasMore(run[|run| - 1].call) && p in run[|run| - 1].topic && run[|run| - 1].topic[p].begin <= o
    ensures Emissions(run, p, o) == 1 <==> Omissions(run, p, o) == 0
    ensures Emissions(run, p, o) <= 1
  {
    var last := run[|run| - 1];
    Ledger(run, p, o);
    var info :| info in last.call.parts && info.partition == p;
    assert High(Final(run), p) <= info.begin;
  }

  // ---------------------------------------------------------------- when nothing is dropped

  /** The newest unread record of no partition has a whole page of newer unread records ahead of it. */
  ghost predicate NoneOutranked(step: Step) {
    forall r | IsNewestUnread(step.call, step.topic, r) ::
      Rank(r, Unread(step.call.parts, step.call.cursor, step.topic)) < step.call.limit
  }

  ghost predicate DropsNothing(step: Step) {
    forall p, o | p in step.topic && HasRecord(step.topic[p], o) && step.topic[p].begin <= o :: !Drops(step.call, p, o)
  }

  /** A window with records ends with the newest unread record of its partition. */
  lemma {:induction false} WindowEndsWithNewest(call: Call, topic: Topic, p: PartitionId) returns (r: Record)
    requires Complete(call, topic) && p in topic && WindowOf(call, topic[p], p) != []
    ensures r.partition == p && IsNewestUnread(call, topic, r)
  {
    var l, high, window := topic[p], High(call.cursor, p), WindowOf(call, topic[p], p);
    var low := Low(l.begin, high, Window(call.limit));
    r := window[|window| - 1];
    DataInMembers(l, p, low, high);
    assert InRange(l, p, low, high, r);
    forall o | r.offset < o < high
      ensures !HasRecord(l, o)
    {
      if HasRecord(l, o) {
        NotAfterLast(window, RecordAt(l, p, o));
      }
    }
  }

  lemma {:induction false} NotAfterLast(s: seq<Record>, r: Record)
    requires Ascending(s) && r in s
    ensures r.offset <= s[|s| - 1].offset
  {
  }

  lemma {:induction false} DropMeansOutranked(step: Step, p: PartitionId, o: int)
    requires Complete(step.call, step.topic) && AllMonotone(step.topic) && Filled(step.call, step.topic) &&
      step.call.limit > 0
    requires p in step.topic && Drops(step.call, p, o)
    ensures !NoneOutranked(step)
  {
    MovesExactlyWhenWindowHasRecords(step.call, step.topic, p);
    var r := WindowEndsWithNewest(step.call, step.topic, p);
    DroppedExactlyWhenOutranked(step.call, step.topic, r);
  }

  lemma {:induction false} DropsExactlyWhenOutranked(step: Step)
    requires Complete(step.call, step.topic) && AllMonotone(step.topic) && Filled(step.call, step.topic) &&
      step.call.limit > 0
    ensures DropsNothing(step) <==> NoneOutranked(step)
  {
    forall p, o | p in step.topic && Drops(step.call, p, o)
      ensures !NoneOutranked(step)
    {
      DropMeansOutranked(step, p, o);
    }
    if !NoneOutranked(step) {
      var r :| IsNewestUnread(step.call, step.topic, r)
        && Rank(r, Unread(step.call.parts, step.call.cursor, step.topic)) >= step.call.limit;
      DroppedExactlyWhenOutranked(step.call, step.topic, r);
      assert Drops(step.call, r.partition, r.offset);
    }
  }

  /**
   * Exactly when paging shows everything it passes: the calls of a run drop no retained record if and only if no
   * partition's newest unread record ever has a whole page of newer unread records ahead of it.
   */
  lemma {:induction false} NothingLostExactlyWhenNoneOutranked(run: seq<Step>)
    requires AllComplete(run) && AllFilled(run) && forall i | 0 <= i < |run| :: run[i].call.limit > 0
    ensures (forall i | 0 <= i < |run| :: DropsNothing(run[i])) <==>
      (forall i | 0 <= i < |run| :: NoneOutranked(run[i]))
  {
    forall i | 0 <= i < |run|
      ensures DropsNothing(run[i]) <==> NoneOutranked(run[i])
    {
      DropsExactlyWhenOutranked(run[i]);
    }
  }

  // ---------------------------------------------------------------- paging ends

  ghost predicate WindowsHoldRecords(call: Call, topic: Topic) {
    forall p | p in topic && High(call.cursor, p) > topic[p].begin :: WindowOf(call, topic[p], p) != []
  }

  lemma {:induction false} DenseWindowsHoldRecords(call: Call, topic: Topic)
    requires call.limit > 0 && forall p | p in topic :: Dense(topic[p], topic[p].begin, High(call.cursor, p))
    ensures WindowsHoldRecords(call, topic)
  {
    forall p | p in topic && High(call.cursor, p) > topic[p].begin
      ensures WindowOf(call, topic[p], p) != []
    {
      var high := High(call.cursor, p);
      DenseCount(topic[p], p, Low(topic[p].begin, high, Window(call.limit)), high);
    }
  }

  function Max(a: int, b: int): int { if a < b then b else a }

  lemma {:induction false} CallTakesOneOff(step: Step, p: PartitionId)
    requires Complete(step.call, step.topic) && p in step.topic && WindowsHoldRecords(step.call, step.topic)
    ensures High(Next(step.call), p) <= Max(step.topic[p].begin, High(step.call.cursor, p) - 1)
  {
    if p in step.call.cursor {
      MovesExactlyWhenWindowHasRecords(step.call, step.topic, p);
    }
  }

  lemma {:induction false} NthCallTakesOneOff(run: seq<Step>, n: nat, p: PartitionId)
    requires n < |run| && Living(run) && AllRead(run) && p in run[0].topic &&
      WindowsHoldRecords(run[n].call, run[n].topic)
    ensures p in run[n].topic
    ensures High(Next(run[n].call), p) <= Max(run[n].topic[p].begin, High(run[n].call.cursor, p) - 1)
  {
    TopicsEvolve(run, 0, n);
    CallTakesOneOff(run[n], p);
  }

  lemma {:induction false} BeginRises(run: seq<Step>, n: nat, p: PartitionId)
    requires 0 < n < |run| && Living(run) && p in run[n - 1].topic
    ensures p in run[n].topic && run[n - 1].topic[p].begin <= run[n].topic[p].begin
  {
    assert Evolves(run[n - 1].topic, run[n - 1 + 1].topic);
  }

  /** Every call takes at least one offset off each cursor that is above the begin offset. */
  lemma {:induction false} CursorBound(run: seq<Step>, n: nat, p: PartitionId)
    requires n < |run| && Chained(run) && Living(run) && AllRead(run) && p in run[0].topic
    requires forall i | 0 <= i < |run| :: WindowsHoldRecords(run[i].call, run[i].topic)
    ensures p in run[n].topic
    ensures High(Next(run[n].call), p) <= Max(run[n].topic[p].begin, High(run[0].call.cursor, p) - n - 1)
  {
    NthCallTakesOneOff(run, n, p);
    if n > 0 {
      CursorBound(run, n - 1, p);
      BeginRises(run, n, p);
      assert run[n].call.cursor == Next(run[n - 1].call);
    }
  }

  /** So paging ends within as many calls as the longest backlog has offsets, whatever the timestamps. */
  lemma {:induction false} PagingTerminates(run: seq<Step>)
    requires run != [] && Chained(run) && Living(run) && AllRead(run)
    requires forall i | 0 <= i < |run| :: WindowsHoldRecords(run[i].call, run[i].topic)
    requires forall p | p in run[|run| - 1].topic && p in run[0].call.cursor ::
      p in run[0].topic && run[0].call.cursor[p] - run[0].topic[p].begin <= |run|
    ensures !HasMore(run[|run| - 1].call)
  {
    var last := run[|run| - 1];
    forall info | info in last.call.parts
      ensures High(Final(run), info.partition) <= info.begin
    {
      var p := info.partition;
      if p in run[0].call.cursor {
        CursorBound(run, |run| - 1, p);
        TopicsEvolve(run, 0, |run| - 1);
      } else {
        if |run| > 1 {
          CursorsFall(run, 0, |run| - 1);
        }
      }
    }
  }

  // ---------------------------------------------------------------- the token between two calls

  /** A client that sends a token back gets the next call of the chain, whatever partitions are then listed. */
  lemma {:induction false} TokenContinuesTheChain(call: Call, parts: seq<PartitionInfo>, d: Decoded)
    requires call.cursor != map[] && DecodesTo(Token(Next(call)), d)
    ensures !d.Invalid? && CursorFor(parts, d) == Next(call)
  {
    assert Next(call).Keys == call.cursor.Keys;
    assert Next(call) != map[] by {
      var p :| p in call.cursor;
      assert p in Next(call);
    }
    TokenRoundTrip(Next(call), d);
  }
}
