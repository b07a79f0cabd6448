/** What one page of the tail browser shows, measured against the whole topic. */
module TailPaging {
  import opened Wrappers
  import opened Records
  import opened KafkaLog
  import opened ForwardFetch
  import opened TailCursor
  import opened TailPage

  // ---------------------------------------------------------------- hypotheses

  /** What every fetch guarantees, short or complete: records of its partition below the cursor, in offset order. */
  ghost predicate Sound(call: Call) {
    && DistinctPartitions(call.parts)
    && forall p | p in call.fetched ::
      && p in call.cursor && call.fetched[p] != [] && Ascending(call.fetched[p])
      && forall r | r in call.fetched[p] :: r.partition == p && r.offset < call.cursor[p]
  }

  function WindowOf(call: Call, l: Log, p: PartitionId): seq<Record> {
    var high := High(call.cursor, p);
    DataIn(l, p, Low(l.begin, high, Window(call.limit)), high)
  }

  /** A window holds the retained records at most 50 offsets, or twice the page size, below the cursor. */
  lemma {:induction false} WindowReach(call: Call, l: Log, p: PartitionId, r: Record)
    ensures var c := High(call.cursor, p);
      r in WindowOf(call, l, p) <==>
      InRange(l, p, l.begin, c, r) && (c - r.offset <= 50 || c - r.offset <= 2 * call.limit)
  {
    var high := High(call.cursor, p);
    DataInMember(l, p, Low(l.begin, high, Window(call.limit)), high, r);
  }

  ghost predicate ReadInFull(call: Call, l: Log, p: PartitionId) {
    if WindowOf(call, l, p) == [] then p !in call.fetched
    else p in call.fetched && call.fetched[p] == WindowOf(call, l, p)
  }

  ghost predicate Lists(parts: seq<PartitionInfo>, topic: Topic) {
    && DistinctPartitions(parts)
    && (forall info | info in parts :: info.partition in topic && info.begin == topic[info.partition].begin
                                       && info.end == |topic[info.partition].slots|)
    && (forall p | p in topic :: exists info | info in parts :: info.partition == p)
  }

  /** The listing is accurate and every window was read to its end. */
  ghost predicate Complete(call: Call, topic: Topic) {
    && Lists(call.parts, topic)
    && call.fetched.Keys <= topic.Keys
    && (forall p | p in topic :: ReadInFull(call, topic[p], p))
  }

  ghost predicate AllMonotone(topic: Topic) {
    forall p | p in topic :: Monotone(topic[p])
  }

  /** A window that does not reach down to the begin offset holds at least a page of records. Dense logs always do. */
  ghost predicate Filled(call: Call, topic: Topic) {
    forall p | p in topic ::
      Low(topic[p].begin, High(call.cursor, p), Window(call.limit)) == topic[p].begin ||
        |WindowOf(call, topic[p], p)| >= call.limit
  }

  lemma {:induction false} CompleteIsSound(call: Call, topic: Topic)
    requires Complete(call, topic)
    ensures Sound(call)
  {
    forall p | p in call.fetched
      ensures p in call.cursor && Ascending(call.fetched[p])
      ensures forall r | r in call.fetched[p] :: r.partition == p && r.offset < call.cursor[p]
    {
      assert ReadInFull(call, topic[p], p);
      var high := High(call.cursor, p);
      DataInMembers(topic[p], p, Low(topic[p].begin, high, Window(call.limit)), high);
    }
  }

  lemma {:induction false} DenseIsFilled(call: Call, topic: Topic)
    requires forall p | p in topic :: Dense(topic[p], topic[p].begin, High(call.cursor, p))
    ensures Filled(call, topic)
  {
    forall p | p in topic
      ensures Low(topic[p].begin, High(call.cursor, p), Window(call.limit)) == topic[p].begin ||
        |WindowOf(call, topic[p], p)| >= call.limit
    {
      var l, high := topic[p], High(call.cursor, p);
      var low := Low(l.begin, high, Window(call.limit));
      if low != l.begin {
        DenseCount(l, p, low, high);
      }
    }
  }

  // ---------------------------------------------------------------- the page as a cut of the fetched records

  lemma {:induction false} PoolDistinct(call: Call)
    requires Sound(call)
    ensures Distinct(Pool(call.parts, call.fetched))
  {
    PoolPrefixDistinct(call, call.parts);
  }

  lemma {:induction false} PoolPrefixDistinct(call: Call, parts: seq<PartitionInfo>)
    requires Sound(call) && parts <= call.parts
    ensures Distinct(Pool(parts, call.fetched))
  {
    if parts != [] {
      var init, p := parts[..|parts| - 1], parts[|parts| - 1].partition;
      PoolPrefixDistinct(call, init);
      if p in call.fetched {
        forall r | r in Pool(init, call.fetched)
          ensures r.partition != p
        {
          PoolMembers(init, call.fetched);
          var info :| info in init && info.partition in call.fetched && r in call.fetched[info.partition];
          var i :| 0 <= i < |init| && init[i] == info;
          assert call.parts[i] == info && call.parts[|init|] == parts[|init|];
        }
        assert forall r | r in call.fetched[p] :: r.partition == p;
      }
    }
  }

  /** A page is the newest part of what was fetched: as long as the limit allows, newer than the rest, upward closed. */
  lemma {:induction false} PageIsTopOfPool(call: Call)
    requires Sound(call)
    ensures Distinct(Pool(call.parts, call.fetched))
    ensures Items(call) == Take(Newest(Pool(call.parts, call.fetched)), call.limit)
    ensures NewestFirst(Items(call))
    ensures forall r | r in Items(call) :: r in Pool(call.parts, call.fetched)
  {
    var pool := Pool(call.parts, call.fetched);
    PoolDistinct(call);
    DedupeDistinct(pool);
    ItemsComeFromPool(call);
    TakeKeepsOrder(Newest(pool), call.limit);
  }

  lemma {:induction false} SamePoolMembers(parts: seq<PartitionInfo>, others: seq<PartitionInfo>,
        fetched: map<PartitionId, seq<Record>>, r: Record)
    requires forall info :: info in others <==> info in parts
    ensures r in Pool(others, fetched) <==> r in Pool(parts, fetched)
  {
    PoolMembers(parts, fetched);
    PoolMembers(others, fetched);
  }

  lemma {:induction false} SamePage(call: Call, other: Call)
    requires Sound(call) && Sound(other) && call.limit == other.limit
    requires forall r :: r in Pool(other.parts, other.fetched) <==> r in Pool(call.parts, call.fetched)
    ensures Items(other) == Items(call)
  {
    PageIsTopOfPool(call);
    PageIsTopOfPool(other);
    SameMembersSameOrder(Newest(Pool(other.parts, other.fetched)), Newest(Pool(call.parts, call.fetched)));
  }

  lemma {:induction false} SamePageSameLow(call: Call, other: Call, p: PartitionId)
    requires Items(other) == Items(call) && other.cursor == call.cursor && other.fetched == call.fetched &&
      p in call.cursor
    ensures Lowered(other, p) == Lowered(call, p)
  {
  }

  lemma {:induction false} SameLowsSameNext(call: Call, other: Call)
    requires other.cursor == call.cursor && forall p | p in call.cursor :: Lowered(other, p) == Lowered(call, p)
    ensures Next(other) == Next(call)
  {
  }

  /** Whatever order the partitions are listed in, the page, the next cursor and `has_more` are the same. */
  lemma {:induction false} ListingOrderIsIrrelevant(call: Call, parts: seq<PartitionInfo>)
    requires Sound(call) && DistinctPartitions(parts) && forall info :: info in parts <==> info in call.parts
    ensures var other := call.(parts := parts);
      Items(other) == Items(call) && Next(other) == Next(call) && (HasMore(other) <==> HasMore(call))
  {
    var other := call.(parts := parts);
    forall r
      ensures r in Pool(parts, call.fetched) <==> r in Pool(call.parts, call.fetched)
    {
      SamePoolMembers(call.parts, parts, call.fetched, r);
    }
    SamePage(call, other);
    forall p | p in call.cursor
      ensures Lowered(other, p) == Lowered(call, p)
    {
      SamePageSameLow(call, other, p);
    }
    SameLowsSameNext(call, other);
  }

  lemma {:induction false} SortedSelectionIsDistinct(s: seq<Record>, t: seq<Record>)
    requires Distinct(s) && NewestFirst(t) && forall r | r in t :: r in s
    ensures Distinct(t)
  {
    forall i, j | 0 <= i < j < |t|
      ensures !SameSlot(t[i], t[j])
    {
      assert Newer(t[i], t[j]) && t[i] in s && t[j] in s;
    }
  }

  lemma {:induction false} PageIsDistinct(call: Call)
    ensures Distinct(Items(call))
  {
    var pool := Pool(call.parts, call.fetched);
    DedupeKeepsOneOfEach(pool);
    TakeKeepsOrder(Newest(Dedupe(pool)), call.limit);
    SortedSelectionIsDistinct(Dedupe(pool), Items(call));
  }

  lemma {:induction false} TakeKeepsOrder(s: seq<Record>, n: nat)
    requires NewestFirst(s)
    ensures NewestFirst(Take(s, n)) && |Take(s, n)| == if n < |s| then n else |s|
  {
  }

  lemma {:induction false} CutIsTop(s: seq<Record>, n: nat, x: Record, r: Record)
    requires Distinct(s) && x in Take(Newest(s), n) && r in s
    ensures r !in Take(Newest(s), n) ==> Newer(x, r)
    ensures Newer(r, x) ==> r in Take(Newest(s), n)
  {
  }

  lemma {:induction false} PoolOf(call: Call, topic: Topic, p: PartitionId)
    requires Complete(call, topic) && p in topic
    ensures forall r :: r in Pool(call.parts, call.fetched) && r.partition == p <==> r in WindowOf(call, topic[p], p)
  {
    CompleteIsSound(call, topic);
    PoolMembers(call.parts, call.fetched);
    var high := High(call.cursor, p);
    DataInMembers(topic[p], p, Low(topic[p].begin, high, Window(call.limit)), high);
    assert ReadInFull(call, topic[p], p);
    var info :| info in call.parts && info.partition == p;
  }

  // ---------------------------------------------------------------- the page against everything unread

  /** All retained records below the cursor. */
  function Unread(parts: seq<PartitionInfo>, c: Cursor, topic: Topic): seq<Record> {
    if parts == [] then []
    else
      var p := parts[|parts| - 1].partition;
      Unread(parts[..|parts| - 1], c, topic) +
        (if p in topic then DataIn(topic[p], p, topic[p].begin, High(c, p)) else [])
  }

  predicate IsUnread(c: Cursor, topic: Topic, r: Record) {
    r.partition in topic && InRange(topic[r.partition], r.partition, topic[r.partition].begin, High(c, r.partition), r)
  }

  lemma {:induction false} UnreadMembers(parts: seq<PartitionInfo>, c: Cursor, topic: Topic, r: Record)
    ensures r in Unread(parts, c, topic) <==>
      IsUnread(c, topic, r) && exists info | info in parts :: info.partition == r.partition
  {
    if parts != [] {
      var init, last := parts[..|parts| - 1], parts[|parts| - 1];
      UnreadMembers(init, c, topic, r);
      assert parts == init + [last];
      if last.partition in topic {
        DataInMember(topic[last.partition], last.partition, topic[last.partition].begin, High(c, last.partition), r);
      }
    }
  }

  lemma {:induction false} UnreadDistinct(parts: seq<PartitionInfo>, c: Cursor, topic: Topic)
    requires DistinctPartitions(parts)
    ensures Distinct(Unread(parts, c, topic))
  {
    if parts != [] {
      var init, p := parts[..|parts| - 1], parts[|parts| - 1].partition;
      UnreadDistinct(init, c, topic);
      forall r | r in Unread(init, c, topic)
        ensures r.partition != p
      {
        UnreadMembers(init, c, topic, r);
        var info :| info in init && info.partition == r.partition;
        var i :| 0 <= i < |init| && init[i] == info;
        assert parts[i] == info;
      }
      if p in topic {
        var range := DataIn(topic[p], p, topic[p].begin, High(c, p));
        DataInMembers(topic[p], p, topic[p].begin, High(c, p));
        AscendingIsDistinct(range);
        assert forall x | x in range :: x.partition == p;
        JoinDistinct(Unread(init, c, topic), range);
      }
    }
  }

  lemma {:induction false} JoinDistinct(s: seq<Record>, t: seq<Record>)
    requires Distinct(s) && Distinct(t) && forall x, y | x in s && y in t :: !SameSlot(x, y)
    ensures Distinct(s + t)
  {
  }

  lemma {:induction false} UnreadFacts(parts: seq<PartitionInfo>, c: Cursor, topic: Topic)
    requires Lists(parts, topic)
    ensures Distinct(Unread(parts, c, topic))
    ensures forall r :: r in Unread(parts, c, topic) <==> IsUnread(c, topic, r)
  {
    UnreadDistinct(parts, c, topic);
    forall r
      ensures r in Unread(parts, c, topic) <==> IsUnread(c, topic, r)
    {
      UnreadMembers(parts, c, topic, r);
      if r.partition in topic {
        var info :| info in parts && info.partition == r.partition;
      }
    }
  }

  // Counting by sets.

  lemma {:induction false} SetOfDistinct(s: seq<Record>)
    requires forall i, j | 0 <= i < j < |s| :: s[i] != s[j]
    ensures |set r | r in s| == |s|
  {
    if s != [] {
      var init, last := s[..|s| - 1], s[|s| - 1];
      SetOfDistinct(init);
      assert s == init + [last];
      assert last !in init;
      assert (set r | r in s) == (set r | r in init) + {last};
    }
  }

  lemma {:induction false} SetOfAny(s: seq<Record>)
    ensures |set r | r in s| <= |s|
  {
    if s != [] {
      var init, last := s[..|s| - 1], s[|s| - 1];
      SetOfAny(init);
      assert s == init + [last];
      assert (set r | r in s) == (set r | r in init) + {last};
    }
  }

  lemma {:induction false} SubsetSize(a: set<Record>, b: set<Record>)
    requires a <= b
    ensures |a| <= |b|
  {
    assert b == a + (b - a);
  }

  /** A distinct list inside another is no longer than it; strictly shorter if it misses a member. */
  lemma {:induction false} Pigeonhole(few: seq<Record>, many: seq<Record>, extra: seq<Record>)
    requires Distinct(few) && |extra| <= 1
    requires forall r | r in few :: r in many
    requires forall r | r in extra :: r in many && r !in few
    ensures |few| + |extra| <= |many|
  {
    var a, b := set r | r in few, set r | r in many;
    SetOfDistinct(few);
    SetOfAny(many);
    if extra == [] {
      SubsetSize(a, b);
    } else {
      SubsetSize(a + {extra[0]}, b);
    }
  }

  lemma {:induction false} AscendingIsDistinct(s: seq<Record>)
    requires Ascending(s)
    ensures Distinct(s)
  {
  }

  /** An unread record outside its window has a full page of newer ones inside it. */
  lemma {:induction false} OutsideWindow(call: Call, topic: Topic, r: Record)
    requires Complete(call, topic) && AllMonotone(topic) && Filled(call, topic)
    requires IsUnread(call.cursor, topic, r) && r !in Pool(call.parts, call.fetched)
    ensures var window := WindowOf(call, topic[r.partition], r.partition);
      && |window| >= call.limit && Distinct(window)
      && forall y | y in window :: Newer(y, r) && y in Pool(call.parts, call.fetched)
  {
    var p, l, high := r.partition, topic[r.partition], High(call.cursor, r.partition);
    var low := Low(l.begin, high, Window(call.limit));
    PoolOf(call, topic, p);
    DataInMembers(l, p, low, high);
    AscendingIsDistinct(WindowOf(call, l, p));
    assert !InRange(l, p, low, high, r);
    forall y | y in WindowOf(call, l, p)
      ensures Newer(y, r) && y in Pool(call.parts, call.fetched)
    {
      LaterOffsetIsNewer(l, p, r.offset, y.offset);
    }
  }

  lemma {:induction false} PoolIsUnread(call: Call, topic: Topic, r: Record)
    requires Complete(call, topic) && r in Pool(call.parts, call.fetched)
    ensures IsUnread(call.cursor, topic, r)
  {
    PoolMembers(call.parts, call.fetched);
    CompleteIsSound(call, topic);
    var p := r.partition;
    PoolOf(call, topic, p);
    var high := High(call.cursor, p);
    DataInMembers(topic[p], p, Low(topic[p].begin, high, Window(call.limit)), high);
  }

  /** No unread record beats a record on the page. */
  lemma {:induction false} PageBeatsUnread(call: Call, topic: Topic, x: Record, r: Record)
    requires Complete(call, topic) && AllMonotone(topic) && Filled(call, topic)
    requires x in Items(call) && IsUnread(call.cursor, topic, r) && r !in Items(call)
    ensures Newer(x, r)
  {
    var pool := Pool(call.parts, call.fetched);
    CompleteIsSound(call, topic);
    PageIsTopOfPool(call);
    if r in pool {
      CutIsTop(pool, call.limit, x, r);
    } else {
      OutsideWindow(call, topic, r);
      PoolIsUnread(call, topic, x);
      assert SameSlot(x, r) ==> x == r;
      NewerIsStrictTotalOrder(x, r, x);
      if Newer(r, x) {
        var window := WindowOf(call, topic[r.partition], r.partition);
        forall y | y in window
          ensures y in Items(call) && y != x
        {
          NewerIsStrictTotalOrder(y, r, x);
          NewerIsStrictTotalOrder(x, x, x);
          CutIsTop(pool, call.limit, x, y);
        }
        Pigeonhole(window, Items(call), [x]);
        assert false;
      }
    }
  }

  lemma {:induction false} PageIsPrefixOfUnread(call: Call, topic: Topic)
    requires Complete(call, topic) && AllMonotone(topic) && Filled(call, topic)
    ensures Distinct(Unread(call.parts, call.cursor, topic))
    ensures Items(call) <= Newest(Unread(call.parts, call.cursor, topic))
  {
    UnreadFacts(call.parts, call.cursor, topic);
    CompleteIsSound(call, topic);
    PageIsTopOfPool(call);
    var sorted := Newest(Unread(call.parts, call.cursor, topic));
    forall r | r in Items(call)
      ensures r in sorted
    {
      PoolIsUnread(call, topic, r);
    }
    forall r, x | r in sorted && r !in Items(call) && x in Items(call)
      ensures Newer(x, r)
    {
      PageBeatsUnread(call, topic, x, r);
    }
    TopIsPrefix(Items(call), sorted);
  }

  /**
   * Reading only a window of each partition loses nothing: the page is the first `limit` records of the newest-first
   * arrangement of everything unread in the topic.
   */
  lemma {:induction false} PageIsTopOfUnread(call: Call, topic: Topic)
    requires Complete(call, topic) && AllMonotone(topic) && Filled(call, topic)
    ensures Distinct(Unread(call.parts, call.cursor, topic))
    ensures Items(call) == Take(Newest(Unread(call.parts, call.cursor, topic)), call.limit)
  {
    PageIsPrefixOfUnread(call, topic);
    PageLength(call);
    if |Items(call)| < call.limit {
      ShortPageLeavesNothing(call, topic);
    }
    PrefixIsTake(Items(call), Newest(Unread(call.parts, call.cursor, topic)), call.limit);
  }

  lemma {:induction false} PrefixIsTake(s: seq<Record>, t: seq<Record>, n: nat)
    requires s <= t && |s| <= n && (|s| < n ==> |t| <= |s|)
    ensures s == Take(t, n)
  {
  }

  lemma {:induction false} ShortPageLeavesNothing(call: Call, topic: Topic)
    requires Complete(call, topic) && AllMonotone(topic) && Filled(call, topic) && |Items(call)| < call.limit
    ensures |Unread(call.parts, call.cursor, topic)| <= |Items(call)|
  {
    ShortPageShowsAll(call, topic);
    UnreadFacts(call.parts, call.cursor, topic);
    Pigeonhole(Unread(call.parts, call.cursor, topic), Items(call), []);
  }

  lemma {:induction false} PageLength(call: Call)
    ensures |Items(call)| <= call.limit
  {
  }

  lemma {:induction false} ShortPageShowsAll(call: Call, topic: Topic)
    requires Complete(call, topic) && AllMonotone(topic) && Filled(call, topic) && |Items(call)| < call.limit
    ensures forall r | IsUnread(call.cursor, topic, r) :: r in Items(call)
  {
    var pool := Pool(call.parts, call.fetched);
    CompleteIsSound(call, topic);
    PageIsTopOfPool(call);
    TakeKeepsOrder(Newest(pool), call.limit);
    forall r | IsUnread(call.cursor, topic, r)
      ensures r in Items(call)
    {
      if r !in pool {
        OutsideWindow(call, topic, r);
        Pigeonhole(WindowOf(call, topic[r.partition], r.partition), pool, []);
        assert false;
      }
    }
  }

  // ---------------------------------------------------------------- what a page does to one partition

  ghost predicate Shows(call: Call, p: PartitionId, o: int) {
    exists r | r in Items(call) :: r.partition == p && r.offset == o
  }

  /** Some record of the partition is on the page. */
  ghost predicate Emits(call: Call, p: PartitionId) {
    MinOffset(Items(call), p).Some?
  }

  lemma {:induction false} ShownIsFetched(call: Call, r: Record)
    requires Sound(call) && r in Items(call)
    ensures r.partition in call.fetched && r in call.fetched[r.partition]
  {
    ItemsComeFromPool(call);
    PoolMembers(call.parts, call.fetched);
  }

  /** The next cursor is not above anything the page shows of its partition. */
  lemma {:induction false} NextIsBelowShown(call: Call, r: Record)
    requires r in Items(call) && r.partition in call.cursor
    ensures Next(call)[r.partition] <= r.offset || call.cursor[r.partition] <= r.offset
  {
    MinOffsetFacts(Items(call), r.partition);
    assert MinOffset(Items(call), r.partition).value <= r.offset;
  }

  /** Whatever was fetched, a page shows nothing at or above its cursor or below the next one. */
  lemma {:induction false} ShownLiesBetweenCursors(call: Call, r: Record)
    requires Sound(call) && r in Items(call)
    ensures r.partition in call.cursor && Next(call)[r.partition] <= r.offset < call.cursor[r.partition]
  {
    ShownIsFetched(call, r);
    NextIsBelowShown(call, r);
  }

  /** The lowest record of a window read in full is the lowest one there is. */
  lemma {:induction false} LowestFetched(call: Call, topic: Topic, p: PartitionId)
    requires Complete(call, topic) && p in topic && p in call.fetched
    ensures MinOffset(call.fetched[p], p).Some?
    ensures var low := Low(topic[p].begin, High(call.cursor, p), Window(call.limit));
      && low <= MinOffset(call.fetched[p], p).value < High(call.cursor, p)
      && HasRecord(topic[p], MinOffset(call.fetched[p], p).value)
  {
    var high := High(call.cursor, p);
    assert ReadInFull(call, topic[p], p);
    DataInMembers(topic[p], p, Low(topic[p].begin, high, Window(call.limit)), high);
    MinOffsetFacts(call.fetched[p], p);
    assert call.fetched[p][0] in call.fetched[p];
  }

  lemma {:induction false} LowestPaged(call: Call, p: PartitionId) returns (m: Record)
    requires Emits(call, p)
    ensures m in Items(call) && m.partition == p && m.offset == MinOffset(Items(call), p).value
  {
    MinOffsetFacts(Items(call), p);
    m :| m in Items(call) && m.partition == p && m.offset == MinOffset(Items(call), p).value;
  }

  /** A partition on the page goes down to its lowest record there. */
  lemma {:induction false} LowestShown(call: Call, topic: Topic, p: PartitionId) returns (m: Record)
    requires Complete(call, topic) && p in topic && Emits(call, p)
    ensures m in Items(call) && m in WindowOf(call, topic[p], p) && m.partition == p
    ensures p in call.cursor && Next(call)[p] == m.offset < call.cursor[p]
  {
    CompleteIsSound(call, topic);
    m := LowestPaged(call, p);
    ShownIsFetched(call, m);
    ShownLiesBetweenCursors(call, m);
    assert ReadInFull(call, topic[p], p);
  }

  /** Between its lowest record on the page and its old cursor, a partition is on the page without gaps. */
  lemma {:induction false} ShownRun(call: Call, topic: Topic, m: Record, o: int)
    requires Complete(call, topic) && m.partition in topic && Monotone(topic[m.partition])
    requires m in Items(call) && m in WindowOf(call, topic[m.partition], m.partition)
    requires m.offset <= o < High(call.cursor, m.partition) && HasRecord(topic[m.partition], o)
    ensures Shows(call, m.partition, o)
  {
    var p, l, r := m.partition, topic[m.partition], RecordAt(topic[m.partition], m.partition, o);
    var low := Low(l.begin, High(call.cursor, p), Window(call.limit));
    DataInMember(l, p, low, High(call.cursor, p), m);
    DataInMember(l, p, low, High(call.cursor, p), r);
    if o == m.offset {
      assert m in Items(call);
    } else {
      LaterOffsetIsNewer(l, p, m.offset, o);
      CompleteIsSound(call, topic);
      PageIsTopOfPool(call);
      PoolOf(call, topic, p);
      CutIsTop(Pool(call.parts, call.fetched), call.limit, m, r);
      assert r in Items(call);
    }
  }

  /**
   * A complete call treats each partition in one of three ways. Nothing to read: the cursor stays. Some record on the
   * page: the page holds exactly the records between the new and the old cursor. None on the page: the cursor still
   * moves below everything fetched, and what lies between is dropped.
   */
  lemma {:induction false} PartitionStep(call: Call, topic: Topic, p: PartitionId)
    requires Complete(call, topic) && p in topic && Monotone(topic[p]) && p in call.cursor
    ensures Emits(call, p) ==> forall o :: Shows(call, p, o) <==>
      Next(call)[p] <= o < call.cursor[p] && HasRecord(topic[p], o)
    ensures Emits(call, p) ==> Next(call)[p] < call.cursor[p]
    ensures !Emits(call, p) ==> forall o :: !Shows(call, p, o)
    ensures !Emits(call, p) ==>
      forall o | Low(topic[p].begin, call.cursor[p], Window(call.limit)) <= o < Next(call)[p] :: !HasRecord(topic[p], o)
  {
    CompleteIsSound(call, topic);
    MinOffsetFacts(Items(call), p);
    if !Emits(call, p) {
      MovesExactlyWhenWindowHasRecords(call, topic, p);
      forall o | Low(topic[p].begin, call.cursor[p], Window(call.limit)) <= o < call.cursor[p] && HasRecord(topic[p], o)
        ensures Next(call)[p] <= o
      {
        DroppedOver(call, topic, p, o);
      }
    } else {
      var m := LowestShown(call, topic, p);
      forall o
        ensures Shows(call, p, o) <==> Next(call)[p] <= o < call.cursor[p] && HasRecord(topic[p], o)
      {
        if Shows(call, p, o) {
          ShownHasRecord(call, topic, p, o);
        } else if m.offset <= o < call.cursor[p] && HasRecord(topic[p], o) {
          ShownRun(call, topic, m, o);
        }
      }
    }
  }

  /** Without a record on the page, the cursor goes to the lowest record of the window or lower. */
  lemma {:induction false} DroppedToLowest(call: Call, p: PartitionId, r: Record)
    requires p in call.cursor && !Emits(call, p) && p in call.fetched && r in call.fetched[p] && r.partition == p
    ensures Next(call)[p] <= r.offset
  {
    MinOffsetFacts(call.fetched[p], p);
  }

  lemma {:induction false} DroppedOver(call: Call, topic: Topic, p: PartitionId, o: int)
    requires Complete(call, topic) && p in topic && p in call.cursor && !Emits(call, p)
    requires Low(topic[p].begin, call.cursor[p], Window(call.limit)) <= o < call.cursor[p] && HasRecord(topic[p], o)
    ensures Next(call)[p] <= o
  {
    var l, high, r := topic[p], call.cursor[p], RecordAt(topic[p], p, o);
    assert r in WindowOf(call, l, p) by {
      DataInMember(l, p, Low(l.begin, high, Window(call.limit)), high, r);
    }
    assert ReadInFull(call, l, p);
    DroppedToLowest(call, p, r);
  }

  lemma {:induction false} ShownHasRecord(call: Call, topic: Topic, p: PartitionId, o: int)
    requires Complete(call, topic) && p in topic && Shows(call, p, o)
    ensures p in call.cursor && Next(call)[p] <= o < call.cursor[p] && HasRecord(topic[p], o) && topic[p].begin <= o
    ensures RecordAt(topic[p], p, o) in Items(call)
  {
    CompleteIsSound(call, topic);
    var r :| r in Items(call) && r.partition == p && r.offset == o;
    ShownLiesBetweenCursors(call, r);
    ShownIsFetched(call, r);
    assert ReadInFull(call, topic[p], p);
    DataInMember(topic[p], p, Low(topic[p].begin, High(call.cursor, p), Window(call.limit)), High(call.cursor, p), r);
  }

  /** A cursor moves exactly when its window holds a record, and never below the begin offset. */
  lemma {:induction false} MovesExactlyWhenWindowHasRecords(call: Call, topic: Topic, p: PartitionId)
    requires Complete(call, topic) && p in topic && p in call.cursor
    ensures Next(call)[p] <= call.cursor[p]
    ensures Next(call)[p] < call.cursor[p] <==> WindowOf(call, topic[p], p) != []
    ensures Next(call)[p] < call.cursor[p] ==>
      Low(topic[p].begin, call.cursor[p], Window(call.limit)) <= Next(call)[p] && HasRecord(topic[p], Next(call)[p])
  {
    assert ReadInFull(call, topic[p], p);
    if p in call.fetched {
      LowestFetched(call, topic, p);
    }
    if Emits(call, p) {
      var m := LowestShown(call, topic, p);
      DataInMember(topic[p], p, Low(topic[p].begin, High(call.cursor, p), Window(call.limit)), High(call.cursor, p), m);
    }
  }

  // ---------------------------------------------------------------- when a window is dropped

  /** How many records of `s` are newer than `r`. */
  ghost function Rank(r: Record, s: seq<Record>): nat {
    |set x | x in s && Newer(x, r)|
  }

  lemma {:induction false} NewerOnesComeFirst(t: seq<Record>, k: nat, x: Record)
    requires NewestFirst(t) && k < |t|
    ensures x in t && Newer(x, t[k]) <==> x in t[..k]
  {
  }

  lemma {:induction false} RankInSorted(s: seq<Record>, t: seq<Record>, k: nat)
    requires NewestFirst(t) && k < |t| && forall x :: x in s <==> x in t
    ensures Rank(t[k], s) == k
  {
    forall x
      ensures x in s && Newer(x, t[k]) <==> x in t[..k]
    {
      NewerOnesComeFirst(t, k, x);
    }
    assert (set x | x in s && Newer(x, t[k])) == (set x | x in t[..k]);
    assert forall i, j | 0 <= i < j < k :: Newer(t[i], t[j]);
    SetOfDistinct(t[..k]);
  }

  lemma {:induction false} RankIsPosition(s: seq<Record>, r: Record, n: nat)
    requires Distinct(s) && r in s
    ensures r in Take(Newest(s), n) <==> Rank(r, s) < n
  {
    var t := Newest(s);
    var k :| 0 <= k < |t| && t[k] == r;
    RankInSorted(s, t, k);
    FoundBefore(t, k, n);
  }

  lemma {:induction false} FoundBefore(t: seq<Record>, k: nat, n: nat)
    requires NewestFirst(t) && k < |t|
    ensures t[k] in Take(t, n) <==> k < n
  {
  }

  /** The newest unread record of a partition. */
  ghost predicate IsNewestUnread(call: Call, topic: Topic, r: Record) {
    && IsUnread(call.cursor, topic, r)
    && forall o | r.offset < o < High(call.cursor, r.partition) :: !HasRecord(topic[r.partition], o)
  }

  lemma {:induction false} NewestUnreadIsInWindow(call: Call, topic: Topic, r: Record)
    requires Complete(call, topic) && Filled(call, topic) && call.limit > 0 && IsNewestUnread(call, topic, r)
    ensures r in WindowOf(call, topic[r.partition], r.partition)
  {
    var p, l, high := r.partition, topic[r.partition], High(call.cursor, r.partition);
    var low := Low(l.begin, high, Window(call.limit));
    if low != l.begin {
      var w := WindowOf(call, l, p)[0];
      DataInMember(l, p, low, high, w);
    }
    DataInMember(l, p, low, high, r);
  }

  /** A partition is on the page exactly when its newest unread record is. */
  lemma {:induction false} EmitsExactlyWhenNewestShown(call: Call, topic: Topic, r: Record)
    requires Complete(call, topic) && AllMonotone(topic) && Filled(call, topic) && call.limit > 0
    requires IsNewestUnread(call, topic, r)
    ensures Emits(call, r.partition) <==> r in Items(call)
  {
    var p := r.partition;
    MinOffsetFacts(Items(call), p);
    NewestUnreadIsInWindow(call, topic, r);
    if Emits(call, p) {
      var m := LowestShown(call, topic, p);
      DataInMember(topic[p], p, Low(topic[p].begin, High(call.cursor, p), Window(call.limit)), High(call.cursor, p), m);
      assert m.offset <= r.offset;
      ShownRun(call, topic, m, r.offset);
      ShownHasRecord(call, topic, p, r.offset);
    }
  }

  /**
   * A call drops unread records of a partition exactly when at least `limit` unread records of the topic are newer than
   * the newest unread record of that partition.
   */
  lemma {:induction false} DroppedExactlyWhenOutranked(call: Call, topic: Topic, r: Record)
    requires Complete(call, topic) && AllMonotone(topic) && Filled(call, topic) && call.limit > 0
    requires IsNewestUnread(call, topic, r)
    ensures r.partition in call.cursor && Next(call)[r.partition] <= r.offset < call.cursor[r.partition]
    ensures !Emits(call, r.partition) <==> Rank(r, Unread(call.parts, call.cursor, topic)) >= call.limit
  {
    var p := r.partition;
    NewestUnreadIsInWindow(call, topic, r);
    MovesExactlyWhenWindowHasRecords(call, topic, p);
    EmitsExactlyWhenNewestShown(call, topic, r);
    UnreadFacts(call.parts, call.cursor, topic);
    PageIsTopOfUnread(call, topic);
    RankIsPosition(Unread(call.parts, call.cursor, topic), r, call.limit);
  }

  // ---------------------------------------------------------------- windows without records

  lemma {:induction false} NothingFetched(parts: seq<PartitionInfo>)
    ensures Pool(parts, map[]) == []
  {
    if parts != [] {
      NothingFetched(parts[..|parts| - 1]);
    }
  }

  /** If no window holds a record the call is empty and changes nothing, so the next call is the same call again. */
  lemma {:induction false} EmptyWindowsStall(call: Call, topic: Topic)
    requires Complete(call, topic) && forall p | p in topic :: WindowOf(call, topic[p], p) == []
    ensures Items(call) == [] && Next(call) == call.cursor
  {
    assert forall p | p in call.fetched :: ReadInFull(call, topic[p], p);
    assert call.fetched == map[];
    NothingFetched(call.parts);
    assert Dedupe([]) == [] && Newest([]) == [];
    assert Items(call) == [];
    assert forall p | p in call.cursor :: Lowered(call, p) == call.cursor[p];
  }

  // ---------------------------------------------------------------- where the hypotheses come from

  /** A broker that keeps its promise for every partition that is read, however early its polls fail or stop. */
  ghost predicate BrokerDelivers(parts: seq<PartitionInfo>, c: Cursor, limit: nat, polls: map<PartitionId, seq<Poll>>,
        topic: Topic) {
    forall info | info in parts && info.partition in polls && High(c, info.partition) > info.begin ::
      && info.partition in topic
      && var (p, l) := (info.partition, topic[info.partition]);
         Delivers(polls[p], DataIn(l, p, Low(info.begin, High(c, p), Window(limit)), |l.slots|))
  }

  lemma {:induction false} AscendingPrefix(s: seq<Record>, t: seq<Record>)
    requires s <= t && Ascending(t)
    ensures Ascending(s) && forall r | r in s :: r in t
  {
  }

  /** One fetch, short or complete, faulty or not. */
  lemma {:induction false} FetchIsSound(info: PartitionInfo, c: Cursor, limit: nat, polls: map<PartitionId, seq<Poll>>,
        l: Log)
    requires info.partition in polls && High(c, info.partition) > info.begin ==>
      var p := info.partition; Delivers(polls[p], DataIn(l, p, Low(info.begin, High(c, p), Window(limit)), |l.slots|))
    requires FetchOf(info, c, Window(limit), polls).Ok? && FetchOf(info, c, Window(limit), polls).value != []
    ensures var (p, recs) := (info.partition, FetchOf(info, c, Window(limit), polls).value);
      && p in c && Ascending(recs) && forall r | r in recs :: r.partition == p && r.offset < c[p]
  {
    var p, high := info.partition, High(c, info.partition);
    var low := Low(info.begin, high, Window(limit));
    FetchReturnsPrefix(l, p, polls[p], low, high, Window(limit));
    DataInMembers(l, p, low, high);
    AscendingPrefix(FetchOf(info, c, Window(limit), polls).value, DataIn(l, p, low, high));
  }

  /** Whatever the polls of a call, its fetches are sound: no fetch needs to be complete for that. */
  lemma {:induction false} FetchesAreSound(parts: seq<PartitionInfo>, c: Cursor, limit: nat,
        polls: map<PartitionId, seq<Poll>>, topic: Topic)
    requires DistinctPartitions(parts) && BrokerDelivers(parts, c, limit, polls, topic)
    ensures Sound(Call(parts, c, limit, Fetched(parts, c, Window(limit), polls)))
  {
    var fetched := Fetched(parts, c, Window(limit), polls);
    FetchedKeys(parts, c, Window(limit), polls);
    forall p: PartitionId | p in fetched
      ensures p in c && fetched[p] != [] && Ascending(fetched[p])
      ensures forall r: Record | r in fetched[p] :: r.partition == p && r.offset < c[p]
    {
      var i :| 0 <= i < |parts| && parts[i].partition == p;
      FetchedAt(parts, i, c, Window(limit), polls);
      assert p in topic;
      FetchIsSound(parts[i], c, limit, polls, topic[p]);
    }
  }

  lemma {:induction false} RangeLength(l: Log, p: PartitionId, lo: nat, hi: int)
    requires lo <= hi
    ensures |DataIn(l, p, lo, hi)| <= hi - lo
    decreases hi - lo
  {
    if lo < hi && lo < |l.slots| {
      RangeLength(l, p, lo + 1, hi);
    }
  }

  /** A broker that keeps its promise, read by polls that do not stop early. */
  ghost predicate AnswersFully(polls: seq<Poll>, l: Log, p: PartitionId, low: nat, high: int, window: nat) {
    && polls != [] && polls[0].Batch?
    && Delivers(polls, DataIn(l, p, low, |l.slots|))
    && Exhausts(polls, DataIn(l, p, low, |l.slots|), high, window)
  }

  lemma {:induction false} FullAnswerFillsWindow(info: PartitionInfo, c: Cursor, window: nat,
        polls: map<PartitionId, seq<Poll>>, l: Log)
    requires window > 0 && info.begin == l.begin && High(c, info.partition) > l.begin
    requires info.partition in polls
    requires AnswersFully(polls[info.partition], l, info.partition, Low(l.begin, High(c, info.partition), window),
                          High(c, info.partition), window)
    ensures var (p, high) := (info.partition, High(c, info.partition));
      FetchOf(info, c, window, polls) == Ok(DataIn(l, p, Low(l.begin, high, window), high))
  {
    var p, high := info.partition, High(c, info.partition);
    var low := Low(l.begin, high, window);
    FetchReturnsPrefix(l, p, polls[p], low, high, window);
    RangeLength(l, p, low, high);
  }

  /** With an accurate listing and full answers, what the call fetches is complete. */
  lemma {:induction false} FullAnswersAreComplete(parts: seq<PartitionInfo>, c: Cursor, limit: nat,
        polls: map<PartitionId, seq<Poll>>, topic: Topic)
    requires limit > 0 && Lists(parts, topic)
    requires forall p | p in topic && High(c, p) > topic[p].begin ::
      p in polls && AnswersFully(polls[p], topic[p], p, Low(topic[p].begin, High(c, p), Window(limit)), High(c, p),
        Window(limit))
    ensures Complete(Call(parts, c, limit, Fetched(parts, c, Window(limit), polls)), topic)
    ensures forall info | info in parts :: FetchOf(info, c, Window(limit), polls).Ok?
  {
    var call := Call(parts, c, limit, Fetched(parts, c, Window(limit), polls));
    forall info | info in parts
      ensures FetchOf(info, c, Window(limit), polls) == Ok(WindowOf(call, topic[info.partition], info.partition))
    {
      var l := topic[info.partition];
      if High(c, info.partition) > l.begin {
        FullAnswerFillsWindow(info, c, Window(limit), polls, l);
      }
    }
    FetchedKeys(parts, c, Window(limit), polls);
    forall p | p in topic
      ensures ReadInFull(call, topic[p], p)
    {
      var info :| info in parts && info.partition == p;
      var i :| 0 <= i < |parts| && parts[i] == info;
      FetchedAt(parts, i, c, Window(limit), polls);
    }
  }
}
