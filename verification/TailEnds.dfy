/** What paging has shown by the time it ends, and when it ends. */
module TailEnds {
  import opened Records
  import opened KafkaLog
  import opened TailPage
  import opened TailPaging
  import opened TailChains
  import opened Runs

  // ---------------------------------------------------------------- when paging ends

  /** The topic is at rest and the page size stays the same. */
  ghost predicate Still(run: seq<Step>) {
    forall i | 0 <= i < |run| :: run[i].topic == run[0].topic && run[i].call.limit == run[0].call.limit
  }

  /** The partition has more to read, but its window is empty. */
  ghost predicate Stuck(step: Step, p: PartitionId) {
    p in step.topic && High(step.call.cursor, p) > step.topic[p].begin && WindowOf(step.call, step.topic[p], p) == []
  }

  lemma {:induction false} StuckCursorStays(step: Step, p: PartitionId)
    requires Complete(step.call, step.topic) && Stuck(step, p)
    ensures p in step.call.cursor && High(Next(step.call), p) == High(step.call.cursor, p) && HasMore(step.call)
  {
    MovesExactlyWhenWindowHasRecords(step.call, step.topic, p);
    var info :| info in step.call.parts && info.partition == p;
  }

  /** On a topic at rest an empty window stays empty: the same offsets are read again for ever. */
  lemma {:induction false} StuckStaysStuck(run: seq<Step>, i: nat, j: nat, p: PartitionId)
    requires Chained(run) && AllRead(run) && Still(run) && i <= j < |run| && Stuck(run[i], p)
    ensures Stuck(run[j], p)
    decreases j - i
  {
    if i < j {
      StuckStaysStuck(run, i, j - 1, p);
      StuckCursorStays(run[j - 1], p);
      assert run[j].call.cursor == Next(run[j - 1].call);
    }
  }

  lemma {:induction false} StillIsLiving(run: seq<Step>)
    requires Still(run)
    ensures Living(run)
  {
  }

  lemma {:induction false} EmptyWindowIsStuck(step: Step)
    ensures WindowsHoldRecords(step.call, step.topic) <==> forall p :: !Stuck(step, p)
  {
    if forall p :: !Stuck(step, p) {
      forall p | p in step.topic && High(step.call.cursor, p) > step.topic[p].begin
        ensures WindowOf(step.call, step.topic[p], p) != []
      {
        assert !Stuck(step, p);
      }
    }
  }

  /**
   * On a topic at rest, `has_more` turns false exactly when no cursor ever meets an empty window above its begin
   * offset: never, if one does; within as many calls as the longest backlog has offsets, if none does.
   */
  lemma {:induction false} EndsExactlyWhenNeverStuck(run: seq<Step>)
    requires run != [] && Chained(run) && AllRead(run) && Still(run)
    requires forall p | p in run[0].topic && p in run[0].call.cursor ::
      run[0].call.cursor[p] - run[0].topic[p].begin <= |run|
    ensures !HasMore(run[|run| - 1].call) <==> forall i, p | 0 <= i < |run| :: !Stuck(run[i], p)
  {
    StillIsLiving(run);
    forall i, p | 0 <= i < |run| && Stuck(run[i], p)
      ensures HasMore(run[|run| - 1].call)
    {
      StuckStaysStuck(run, i, |run| - 1, p);
      StuckCursorStays(run[|run| - 1], p);
    }
    if forall i, p | 0 <= i < |run| :: !Stuck(run[i], p) {
      forall i | 0 <= i < |run|
        ensures WindowsHoldRecords(run[i].call, run[i].topic)
      {
        EmptyWindowIsStuck(run[i]);
      }
      PagingTerminates(run);
    }
  }

  // ---------------------------------------------------------------- what has been shown then

  /** A chain during which nothing is trimmed; producers may append. It starts at offsets the log has reached. */
  ghost predicate Untrimmed(run: seq<Step>) {
    && run != [] && Chained(run) && Living(run) && Grounded(run[0].call.cursor, run[0].topic)
    && forall i, p | 0 <= i < |run| && p in run[0].topic && p in run[i].topic ::
      run[i].topic[p].begin == run[0].topic[p].begin
  }

  /** Complete calls with timestamps in offset order, windows that hold a page, and pages that hold a record. */
  ghost predicate WellRead(run: seq<Step>) {
    AllComplete(run) && AllFilled(run) && forall i | 0 <= i < |run| :: run[i].call.limit > 0
  }

  ghost function AtStart(run: seq<Step>): seq<Record>
    requires run != []
  {
    Unread(run[0].call.parts, run[0].call.cursor, run[0].topic)
  }

  /** Every record unread at the start is shown exactly once. */
  ghost predicate ShowsAll(run: seq<Step>)
    requires run != []
  {
    forall r | IsUnread(run[0].call.cursor, run[0].topic, r) :: Emissions(run, r.partition, r.offset) == 1
  }

  ghost predicate NeverOutranked(run: seq<Step>) {
    forall i | 0 <= i < |run| :: NoneOutranked(run[i])
  }

  lemma {:induction false} CursorFell(run: seq<Step>, i: nat)
    requires Chained(run) && i < |run|
    ensures run[i].call.cursor.Keys == run[0].call.cursor.Keys
    ensures forall p | p in run[i].call.cursor :: run[i].call.cursor[p] <= run[0].call.cursor[p]
  {
    if i > 0 {
      CursorsFall(run, 0, i);
      MovesDown(run[0].call);
    }
  }

  lemma {:induction false} UnreadAtStart(run: seq<Step>, i: nat, r: Record)
    requires Untrimmed(run) && i < |run| && IsUnread(run[i].call.cursor, run[i].topic, r)
    ensures IsUnread(run[0].call.cursor, run[0].topic, r)
  {
    CursorFell(run, i);
    TopicsEvolve(run, 0, i);
    UnreadBefore(run[0].topic, run[i].topic, run[0].call.cursor, run[i].call.cursor, r);
  }

  /** A record of the start is still there, and the same, at every later call. */
  lemma {:induction false} StaysRetained(run: seq<Step>, i: nat, r: Record)
    requires Untrimmed(run) && i < |run| && IsUnread(run[0].call.cursor, run[0].topic, r)
    ensures var (p, topic) := (r.partition, run[i].topic);
      p in topic && topic[p].begin <= r.offset && HasRecord(topic[p], r.offset) && RecordAt(topic[p], p, r.offset) == r
    ensures r.partition in run[0].call.cursor && r.offset < run[0].call.cursor[r.partition]
  {
    StaysARecord(run, i, r.partition, r.offset);
    TopicsEvolve(run, 0, i);
    assert run[0].topic[r.partition].slots <= run[i].topic[r.partition].slots;
  }

  lemma {:induction false} NothingDroppedOf(run: seq<Step>, r: Record)
    requires Untrimmed(run) && WellRead(run) && NeverOutranked(run) && IsUnread(run[0].call.cursor, run[0].topic, r)
    ensures Omissions(run, r.partition, r.offset) == 0
  {
    CountZero(DroppedAt(r.partition, r.offset), run);
    forall step | step in run
      ensures !DroppedAt(r.partition, r.offset)(step)
    {
      var i :| 0 <= i < |run| && run[i] == step;
      StaysRetained(run, i, r);
      DropsExactlyWhenOutranked(step);
    }
  }

  lemma {:induction false} ShownOnceUnlessDropped(run: seq<Step>, r: Record)
    requires Untrimmed(run) && WellRead(run) && !HasMore(run[|run| - 1].call) &&
      IsUnread(run[0].call.cursor, run[0].topic, r)
    ensures Emissions(run, r.partition, r.offset) == 1 <==> Omissions(run, r.partition, r.offset) == 0
    ensures Emissions(run, r.partition, r.offset) <= 1
  {
    StaysRetained(run, |run| - 1, r);
    NothingLeftMeansShownOrDropped(run, r.partition, r.offset);
  }

  lemma {:induction false} DropWasUnread(run: seq<Step>, i: nat, p: PartitionId, o: int) returns (r: Record)
    requires Untrimmed(run) && i < |run| && p in run[i].topic && HasRecord(run[i].topic[p], o) &&
      run[i].topic[p].begin <= o
    requires Drops(run[i].call, p, o)
    ensures r.partition == p && r.offset == o && IsUnread(run[0].call.cursor, run[0].topic, r)
  {
    r := RecordAt(run[i].topic[p], p, o);
    UnreadAtStart(run, i, r);
  }

  lemma {:induction false} DropIsCounted(run: seq<Step>, i: nat, p: PartitionId, o: int)
    requires i < |run| && Drops(run[i].call, p, o)
    ensures Omissions(run, p, o) > 0
  {
    CountZero(DroppedAt(p, o), run);
    assert run[i] in run && DroppedAt(p, o)(run[i]);
  }

  lemma {:induction false} DropIsMissed(run: seq<Step>, i: nat, p: PartitionId, o: int)
    requires Untrimmed(run) && WellRead(run) && !HasMore(run[|run| - 1].call) && i < |run|
    requires p in run[i].topic && HasRecord(run[i].topic[p], o) && run[i].topic[p].begin <= o &&
      Drops(run[i].call, p, o)
    ensures !ShowsAll(run)
  {
    var r := DropWasUnread(run, i, p, o);
    DropIsCounted(run, i, p, o);
    ShownOnceUnlessDropped(run, r);
  }

  lemma {:induction false} OutrankedIsMissed(run: seq<Step>, i: nat)
    requires Untrimmed(run) && WellRead(run) && !HasMore(run[|run| - 1].call) && i < |run| && !NoneOutranked(run[i])
    ensures !ShowsAll(run)
  {
    var call, topic := run[i].call, run[i].topic;
    DropsExactlyWhenOutranked(run[i]);
    var p, o :| p in topic && HasRecord(topic[p], o) && topic[p].begin <= o && Drops(call, p, o);
    DropIsMissed(run, i, p, o);
  }

  /**
   * What paging until the button disappears loads: once `has_more` is false, every record that was unread at the
   * start has been shown exactly once if and only if in no call a partition's newest unread record had a whole page
   * of newer unread records ahead of it.
   */
  lemma {:induction false} AllShownExactlyWhenNeverOutranked(run: seq<Step>)
    requires Untrimmed(run) && WellRead(run) && !HasMore(run[|run| - 1].call)
    ensures ShowsAll(run) <==> NeverOutranked(run)
  {
    if NeverOutranked(run) {
      forall r | IsUnread(run[0].call.cursor, run[0].topic, r)
        ensures Emissions(run, r.partition, r.offset) == 1
      {
        NothingDroppedOf(run, r);
        ShownOnceUnlessDropped(run, r);
      }
    } else {
      var i :| 0 <= i < |run| && !NoneOutranked(run[i]);
      OutrankedIsMissed(run, i);
    }
  }

  // ---------------------------------------------------------------- the whole topic, newest first

  lemma {:induction false} PagedWasUnread(run: seq<Step>, r: Record)
    requires Untrimmed(run) && WellRead(run) && r in Flatten(PagesOf(run))
    ensures IsUnread(run[0].call.cursor, run[0].topic, r)
  {
    FlattenMembers(PagesOf(run), r);
    var i :| 0 <= i < |run| && r in PagesOf(run)[i];
    ItemsComeFromPool(run[i].call);
    PoolIsUnread(run[i].call, run[i].topic, r);
    UnreadAtStart(run, i, r);
  }

  lemma {:induction false} ShownExactlyWhenOnPage(run: seq<Step>, i: nat, r: Record)
    requires Untrimmed(run) && WellRead(run) && i < |run| && IsUnread(run[0].call.cursor, run[0].topic, r)
    ensures Shows(run[i].call, r.partition, r.offset) <==> r in PagesOf(run)[i]
  {
    StaysRetained(run, i, r);
    if Shows(run[i].call, r.partition, r.offset) {
      ShownHasRecord(run[i].call, run[i].topic, r.partition, r.offset);
    }
  }

  lemma {:induction false} CountedSomewhere<T>(f: T -> bool, s: seq<T>)
    ensures Count(f, s) > 0 <==> exists i | 0 <= i < |s| :: f(s[i])
  {
    CountZero(f, s);
    assert forall x | x in s :: exists i | 0 <= i < |s| :: s[i] == x;
    assert forall i | 0 <= i < |s| :: s[i] in s;
  }

  /** A record of the start is on some page exactly when its slot is shown at all. */
  lemma {:induction false} PagedExactlyWhenEmitted(run: seq<Step>, r: Record)
    requires Untrimmed(run) && WellRead(run) && IsUnread(run[0].call.cursor, run[0].topic, r)
    ensures r in Flatten(PagesOf(run)) <==> Emissions(run, r.partition, r.offset) > 0
  {
    CountedSomewhere(ShownAt(r.partition, r.offset), run);
    FlattenMembers(PagesOf(run), r);
    forall i | 0 <= i < |run|
      ensures ShownAt(r.partition, r.offset)(run[i]) <==> r in PagesOf(run)[i]
    {
      ShownExactlyWhenOnPage(run, i, r);
    }
  }

  lemma {:induction false} AllPagedExactlyWhenAllShown(run: seq<Step>)
    requires Untrimmed(run) && WellRead(run) && !HasMore(run[|run| - 1].call)
    ensures (forall r | IsUnread(run[0].call.cursor, run[0].topic, r) :: r in Flatten(PagesOf(run))) <==> ShowsAll(run)
  {
    forall r | IsUnread(run[0].call.cursor, run[0].topic, r)
      ensures r in Flatten(PagesOf(run)) <==> Emissions(run, r.partition, r.offset) == 1
    {
      PagedExactlyWhenEmitted(run, r);
      ShownOnceUnlessDropped(run, r);
    }
  }

  lemma {:induction false} SameListExactlyWhenSameMembers(s: seq<Record>, t: seq<Record>)
    requires NewestFirst(s) && NewestFirst(t) && forall r | r in s :: r in t
    ensures s == t <==> forall r | r in t :: r in s
  {
    if forall r | r in t :: r in s {
      SameMembersSameOrder(s, t);
    }
  }

  /**
   * On any number of partitions: the pages of a finished chain, laid end to end, are the newest-first sort of
   * everything that was unread at the start, exactly when no call found a partition outranked.
   */
  lemma {:induction false} WholeTopicExactlyWhenNeverOutranked(run: seq<Step>)
    requires Untrimmed(run) && WellRead(run) && !HasMore(run[|run| - 1].call)
    ensures Distinct(AtStart(run))
    ensures Flatten(PagesOf(run)) == Newest(AtStart(run)) <==> NeverOutranked(run)
  {
    UnreadFacts(run[0].call.parts, run[0].call.cursor, run[0].topic);
    PagesAreNewestFirst(run);
    forall r | r in Flatten(PagesOf(run))
      ensures r in Newest(AtStart(run))
    {
      PagedWasUnread(run, r);
    }
    SameListExactlyWhenSameMembers(Flatten(PagesOf(run)), Newest(AtStart(run)));
    AllPagedExactlyWhenAllShown(run);
    AllShownExactlyWhenNeverOutranked(run);
  }
}
