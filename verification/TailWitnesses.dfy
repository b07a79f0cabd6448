/** Topics on which tail paging leaves records out or stops making progress, for every page size the server serves. */
module TailWitnesses {
  import opened Records
  import opened KafkaLog
  import opened TailPage
  import opened TailPaging
  import opened TailChains
  import opened TailEnds

  const MAX_PAGE: nat := 500

  // ---------------------------------------------------------------- a record that no page shows

  const OLD_RECORD := Record(1, 0, 5, "old")

  function NewerLog(limit: nat): Log
    requires limit <= MAX_PAGE
  {
    RawLog(0, seq(limit, _ => Data(10, "new")))
  }

  /** A page of newer records in one partition, one older record in another. */
  function OutrankedTopic(limit: nat): Topic
    requires limit <= MAX_PAGE
  {
    map[0 := NewerLog(limit), 1 := RawLog(0, [Data(5, "old")])]
  }

  function OutrankedParts(limit: nat): seq<PartitionInfo>
    requires limit <= MAX_PAGE
  {
    [PartitionInfo(0, 0, limit), PartitionInfo(1, 0, 1)]
  }

  /** The first call, from the end offsets. */
  function OutrankedCall(limit: nat): Call
    requires limit <= MAX_PAGE
  {
    Call(OutrankedParts(limit), map[0 := limit, 1 := 1], limit,
      map[0 := DataIn(NewerLog(limit), 0, 0, limit), 1 := [OLD_RECORD]])
  }

  lemma {:induction false} OutrankedStart(limit: nat)
    requires limit <= MAX_PAGE
    ensures OutrankedCall(limit).cursor == EndCursor(OutrankedParts(limit))
  {
    var parts := OutrankedParts(limit);
    assert parts[..1] == [parts[0]] && [parts[0]][..0] == [];
    assert EndCursor([parts[0]]) == EndCursor([])[0 := limit];
  }

  lemma {:induction false} NewerRange(limit: nat)
    requires limit <= MAX_PAGE
    ensures Dense(NewerLog(limit), 0, limit) && |DataIn(NewerLog(limit), 0, 0, limit)| == limit
  {
    DenseCount(NewerLog(limit), 0, 0, limit);
  }

  lemma {:induction false} OldRange(l: Log)
    requires l == RawLog(0, [Data(5, "old")])
    ensures DataIn(l, 1, 0, 1) == [OLD_RECORD]
  {
    assert DataIn(l, 1, 1, 1) == [];
  }

  lemma {:induction false} OutrankedIsListed(limit: nat)
    requires limit <= MAX_PAGE
    ensures Lists(OutrankedParts(limit), OutrankedTopic(limit))
  {
    var parts := OutrankedParts(limit);
    assert parts[0] in parts && parts[1] in parts;
  }

  lemma {:induction false} OutrankedWindows(limit: nat)
    requires 0 < limit <= MAX_PAGE
    ensures var (call, topic) := (OutrankedCall(limit), OutrankedTopic(limit));
      ReadInFull(call, topic[0], 0) && ReadInFull(call, topic[1], 1)
  {
    NewerRange(limit);
    OldRange(OutrankedTopic(limit)[1]);
  }

  lemma {:induction false} OutrankedOrder(limit: nat)
    requires limit <= MAX_PAGE
    ensures AllMonotone(OutrankedTopic(limit)) && Filled(OutrankedCall(limit), OutrankedTopic(limit))
  {
    assert Monotone(NewerLog(limit));
  }

  lemma {:induction false} OutrankedIsComplete(limit: nat)
    requires 0 < limit <= MAX_PAGE
    ensures Complete(OutrankedCall(limit), OutrankedTopic(limit))
  {
    OutrankedIsListed(limit);
    OutrankedWindows(limit);
  }

  lemma {:induction false} NewerAreUnread(limit: nat, r: Record)
    requires 0 < limit <= MAX_PAGE && r in DataIn(NewerLog(limit), 0, 0, limit)
    ensures IsUnread(OutrankedCall(limit).cursor, OutrankedTopic(limit), r) && Newer(r, OLD_RECORD)
  {
    DataInMember(NewerLog(limit), 0, 0, limit, r);
  }

  lemma {:induction false} OldIsOutranked(limit: nat)
    requires 0 < limit <= MAX_PAGE
    ensures var (call, topic) := (OutrankedCall(limit), OutrankedTopic(limit));
      IsNewestUnread(call, topic, OLD_RECORD) && Rank(OLD_RECORD, Unread(call.parts, call.cursor, topic)) >= limit
  {
    var call, topic, newer := OutrankedCall(limit), OutrankedTopic(limit), DataIn(NewerLog(limit), 0, 0, limit);
    var unread := Unread(call.parts, call.cursor, topic);
    OutrankedIsComplete(limit);
    UnreadFacts(call.parts, call.cursor, topic);
    NewerRange(limit);
    DataInAscending(NewerLog(limit), 0, 0, limit);
    SetOfDistinct(newer);
    forall r | r in newer
      ensures r in unread && Newer(r, OLD_RECORD)
    {
      NewerAreUnread(limit, r);
    }
    SubsetSize(set r | r in newer, set r | r in unread && Newer(r, OLD_RECORD));
  }

  lemma {:induction false} OutrankedPool(limit: nat)
    requires 0 < limit <= MAX_PAGE
    ensures var call := OutrankedCall(limit); |Pool(call.parts, call.fetched)| == limit + 1
  {
    var call, parts := OutrankedCall(limit), OutrankedParts(limit);
    NewerRange(limit);
    assert parts[..1] == [parts[0]] && [parts[0]][..0] == [];
    assert Pool([parts[0]], call.fetched) == Pool([], call.fetched) + DataIn(NewerLog(limit), 0, 0, limit);
  }

  lemma {:induction false} FullPage(limit: nat)
    requires 0 < limit <= MAX_PAGE
    ensures Sound(OutrankedCall(limit)) && |Items(OutrankedCall(limit))| == limit
  {
    var call := OutrankedCall(limit);
    OutrankedIsComplete(limit);
    CompleteIsSound(call, OutrankedTopic(limit));
    PageIsTopOfPool(call);
    OutrankedPool(limit);
    TakeKeepsOrder(Newest(Pool(call.parts, call.fetched)), limit);
  }

  /** Without the second partition, the page consists of records of the first. */
  lemma {:induction false} PagedIsNewer(limit: nat, r: Record)
    requires 0 < limit <= MAX_PAGE && !Emits(OutrankedCall(limit), 1) && r in Items(OutrankedCall(limit))
    ensures r in DataIn(NewerLog(limit), 0, 0, limit) && Next(OutrankedCall(limit))[0] <= r.offset
  {
    var call := OutrankedCall(limit);
    FullPage(limit);
    MinOffsetFacts(Items(call), 1);
    ShownIsFetched(call, r);
    ShownLiesBetweenCursors(call, r);
  }

  lemma {:induction false} FirstPartitionIsDone(limit: nat)
    requires 0 < limit <= MAX_PAGE && !Emits(OutrankedCall(limit), 1)
    ensures Next(OutrankedCall(limit))[0] <= 0
  {
    var call, log := OutrankedCall(limit), NewerLog(limit);
    FullPage(limit);
    PageIsDistinct(call);
    MovesDown(call);
    var low := if Next(call)[0] < 0 then 0 else Next(call)[0];
    forall r | r in Items(call)
      ensures r in DataIn(log, 0, low, limit)
    {
      PagedIsNewer(limit, r);
      DataInMember(log, 0, 0, limit, r);
      DataInMember(log, 0, low, limit, r);
    }
    Pigeonhole(Items(call), DataIn(log, 0, low, limit), []);
    RangeLength(log, 0, low, limit);
  }

  /**
   * For every page size: after the first call nothing is left to load, and the older record, there and unread all
   * along, has been on no page.
   */
  lemma {:induction false} OldRecordNeverShown(limit: nat)
    requires 0 < limit <= MAX_PAGE
    ensures var (call, topic) := (OutrankedCall(limit), OutrankedTopic(limit));
      && Complete(call, topic) && AllMonotone(topic) && Filled(call, topic)
      && call.cursor == EndCursor(call.parts) && IsUnread(call.cursor, topic, OLD_RECORD)
      && OLD_RECORD !in Items(call) && !HasMore(call)
  {
    var call, topic := OutrankedCall(limit), OutrankedTopic(limit);
    OutrankedIsComplete(limit);
    OutrankedOrder(limit);
    OutrankedStart(limit);
    OldIsOutranked(limit);
    DroppedExactlyWhenOutranked(call, topic, OLD_RECORD);
    MinOffsetFacts(Items(call), 1);
    FirstPartitionIsDone(limit);
  }

  // ---------------------------------------------------------------- paging that makes no progress

  /** One record, and a window's worth of offsets without records above it. */
  function SparseLog(limit: nat): Log
    requires limit <= MAX_PAGE
  {
    RawLog(0, [Data(5, "old")] + seq(Window(limit), _ => Hole))
  }

  function SparseTopic(limit: nat): Topic
    requires limit <= MAX_PAGE
  {
    map[0 := SparseLog(limit)]
  }

  function SparseCall(limit: nat): Call
    requires limit <= MAX_PAGE
  {
    var end := Window(limit) + 1;
    Call([PartitionInfo(0, 0, end)], map[0 := end], limit, map[])
  }

  lemma {:induction false} HolesHoldNothing(l: Log, p: PartitionId, lo: nat, hi: int)
    requires forall o | lo <= o < hi :: !HasRecord(l, o)
    ensures DataIn(l, p, lo, hi) == []
  {
    var s := DataIn(l, p, lo, hi);
    if s != [] {
      DataInMember(l, p, lo, hi, s[0]);
    }
  }

  lemma {:induction false} SparseWindowIsEmpty(limit: nat)
    requires limit <= MAX_PAGE
    ensures WindowOf(SparseCall(limit), SparseLog(limit), 0) == []
  {
    HolesHoldNothing(SparseLog(limit), 0, 1, Window(limit) + 1);
  }

  lemma {:induction false} SparseIsComplete(limit: nat)
    requires limit <= MAX_PAGE
    ensures Complete(SparseCall(limit), SparseTopic(limit)) && AllMonotone(SparseTopic(limit))
  {
    var call, topic := SparseCall(limit), SparseTopic(limit);
    SparseWindowIsEmpty(limit);
    assert call.parts[0] in call.parts;
    assert ReadInFull(call, topic[0], 0);
  }

  lemma {:induction false} SparseStart(limit: nat)
    requires limit <= MAX_PAGE
    ensures SparseCall(limit).cursor == EndCursor(SparseCall(limit).parts)
  {
    var parts := SparseCall(limit).parts;
    assert parts[..0] == [];
  }

  lemma {:induction false} SparseIsStuck(limit: nat)
    requires limit <= MAX_PAGE
    ensures Stuck(Step(SparseTopic(limit), SparseCall(limit)), 0)
    ensures IsUnread(SparseCall(limit).cursor, SparseTopic(limit), Record(0, 0, 5, "old"))
  {
    SparseWindowIsEmpty(limit);
  }

  lemma {:induction false} SparseShowsNothing(limit: nat)
    requires limit <= MAX_PAGE
    ensures Items(SparseCall(limit)) == [] && Next(SparseCall(limit)) == SparseCall(limit).cursor
  {
    SparseWindowIsEmpty(limit);
    SparseIsComplete(limit);
    EmptyWindowsStall(SparseCall(limit), SparseTopic(limit));
  }

  /**
   * For every page size: the first call over this topic is complete, shows nothing, returns the cursor it was given and
   * says that there is more, so the next call is the same call again; the one record is never reached.
   */
  lemma {:induction false} PagingStalls(limit: nat)
    requires 0 < limit <= MAX_PAGE
    ensures var (call, topic) := (SparseCall(limit), SparseTopic(limit));
      && Complete(call, topic) && AllMonotone(topic) && call.cursor == EndCursor(call.parts)
      && IsUnread(call.cursor, topic, Record(0, 0, 5, "old"))
      && Stuck(Step(topic, call), 0) && Items(call) == [] && Next(call) == call.cursor && HasMore(call)
  {
    var call, topic := SparseCall(limit), SparseTopic(limit);
    SparseIsComplete(limit);
    SparseStart(limit);
    SparseIsStuck(limit);
    SparseShowsNothing(limit);
    StuckCursorStays(Step(topic, call), 0);
  }
}
