/** One call of the tail browser: a page of the newest records below a cursor, and the lowered cursor. */
module TailPage {
  import opened Wrappers
  import opened Records
  import opened ForwardFetch
  import opened TailCursor

  datatype PartitionInfo = PartitionInfo(partition: PartitionId, begin: Position, end: Position)

  datatype TailResult = TailResult(items: seq<Record>, hasMore: bool, token: string)

  function PageLimit(limit: int): nat {
    if limit <= 0 || limit > 500 then 50 else limit
  }

  /** How many offsets below its cursor a call reads of each partition. */
  function Window(limit: nat): nat {
    if limit * 2 < 50 then 50 else limit * 2
  }

  /** Go reads a missing map entry as zero. */
  function High(c: Cursor, p: PartitionId): Offset {
    if p in c then c[p] else 0
  }

  function Low(begin: nat, high: int, window: nat): (low: nat)
    ensures begin <= low && (low < high <==> begin < high && window > 0)
  {
    if high - begin > window then high - window else begin
  }

  ghost predicate DistinctPartitions(parts: seq<PartitionInfo>) {
    forall i, j | 0 <= i < j < |parts| :: parts[i].partition != parts[j].partition
  }

  // ---------------------------------------------------------------- specification

  /** What one call works on: the listed partitions, the decoded cursor, the page size and the non-empty fetches. */
  datatype Call = Call(parts: seq<PartitionInfo>, cursor: Cursor, limit: nat, fetched: map<PartitionId, seq<Record>>)

  function FetchOf(info: PartitionInfo, c: Cursor, window: nat,
        polls: map<PartitionId, seq<Poll>>): Result<seq<Record>, FetchError> {
    var p := info.partition;
    var high := High(c, p);
    if high <= info.begin then Ok([])
    else Forward(if p in polls then polls[p] else [], Low(info.begin, high, window), high, window)
  }

  function Fetched(parts: seq<PartitionInfo>, c: Cursor, window: nat,
        polls: map<PartitionId, seq<Poll>>): map<PartitionId, seq<Record>> {
    if parts == [] then map[]
    else
      var (earlier, info) := (Fetched(parts[..|parts| - 1], c, window, polls), parts[|parts| - 1]);
      match FetchOf(info, c, window, polls)
      case Ok(recs) => if recs == [] then earlier else earlier[info.partition := recs]
      case Err(_) => earlier
  }

  function EndCursor(parts: seq<PartitionInfo>): Cursor {
    if parts == [] then map[]
    else
      var info := parts[|parts| - 1];
      EndCursor(parts[..|parts| - 1])[info.partition := info.end]
  }

  /** Exactly the listed partitions, each at its end offset. */
  ghost predicate AtEnds(parts: seq<PartitionInfo>, c: Cursor) {
    && (forall info | info in parts :: info.partition in c && c[info.partition] == info.end)
    && (forall p: PartitionId | p in c :: exists info | info in parts :: info.partition == p)
  }

  lemma {:induction false} OneMoreEnd(parts: seq<PartitionInfo>, c: Cursor, info: PartitionInfo)
    requires DistinctPartitions(parts + [info]) && AtEnds(parts, c)
    ensures AtEnds(parts + [info], c[info.partition := info.end])
  {
    var all := parts + [info];
    forall other | other in parts
      ensures other.partition != info.partition
    {
      var i :| 0 <= i < |parts| && parts[i] == other;
      assert all[i].partition != all[|parts|].partition;
    }
    assert info in all && forall other | other in parts :: other in all;
  }

  lemma {:induction false} EndCursorIsAtEnds(parts: seq<PartitionInfo>)
    requires DistinctPartitions(parts)
    ensures AtEnds(parts, EndCursor(parts))
  {
    if parts != [] {
      var init, last := parts[..|parts| - 1], parts[|parts| - 1];
      assert parts == init + [last];
      EndCursorIsAtEnds(init);
      OneMoreEnd(init, EndCursor(init), last);
    }
  }

  function Pool(parts: seq<PartitionInfo>, fetched: map<PartitionId, seq<Record>>): seq<Record> {
    if parts == [] then []
    else
      var p := parts[|parts| - 1].partition;
      Pool(parts[..|parts| - 1], fetched) + (if p in fetched then fetched[p] else [])
  }

  ghost function Items(call: Call): seq<Record> {
    var pool := Pool(call.parts, call.fetched);
    DedupeKeepsOneOfEach(pool);
    Take(Newest(Dedupe(pool)), call.limit)
  }

  /** The smallest offset of partition `p` in `s`. */
  function MinOffset(s: seq<Record>, p: PartitionId): Option<Position> {
    if s == [] then None
    else
      var (earlier, r) := (MinOffset(s[..|s| - 1], p), s[|s| - 1]);
      if r.partition == p && (earlier.None? || r.offset < earlier.value) then Some(r.offset) else earlier
  }

  /**
   * A partition with a record on the page goes down to its lowest one there, any other to the lowest record fetched.
   */
  function LowestOf(page: seq<Record>, fetched: map<PartitionId, seq<Record>>, p: PartitionId): Option<Position> {
    var onPage := MinOffset(page, p);
    if onPage.Some? then onPage
    else if p in fetched then MinOffset(fetched[p], p)
    else None
  }

  ghost function LowestSeen(call: Call, p: PartitionId): Option<Position> {
    LowestOf(Items(call), call.fetched, p)
  }

  ghost function Lowered(call: Call, p: PartitionId): Offset
    requires p in call.cursor
  {
    var seen := LowestSeen(call, p);
    if seen.Some? && seen.value < call.cursor[p] then seen.value else call.cursor[p]
  }

  ghost function Next(call: Call): Cursor {
    map p | p in call.cursor :: Lowered(call, p)
  }

  ghost predicate HasMore(call: Call) {
    exists info | info in call.parts :: High(Next(call), info.partition) > info.begin
  }

  ghost predicate Tagged(fetched: map<PartitionId, seq<Record>>) {
    forall p, r | p in fetched && r in fetched[p] :: r.partition == p
  }

  // ---------------------------------------------------------------- implementation

  method StartCursor(parts: seq<PartitionInfo>) returns (cursor: Cursor)
    requires DistinctPartitions(parts)
    ensures AtEnds(parts, cursor) && cursor == EndCursor(parts)
  {
    EndCursorIsAtEnds(parts);
    cursor := map[];
    for i := 0 to |parts|
      invariant cursor == EndCursor(parts[..i])
    {
      assert parts[..i + 1][..i] == parts[..i];
      cursor := cursor[parts[i].partition := parts[i].end];
    }
    assert parts[..|parts|] == parts;
  }

  method LowestOffset(recs: seq<Record>, ghost p: PartitionId) returns (minOff: Position)
    requires recs != [] && forall r | r in recs :: r.partition == p
    ensures MinOffset(recs, p) == Some(minOff)
  {
    minOff := recs[0].offset;
    assert recs[..1][..0] == [];
    for i := 1 to |recs|
      invariant MinOffset(recs[..i], p) == Some(minOff)
    {
      assert recs[..i + 1][..i] == recs[..i];
      if recs[i].offset < minOff {
        minOff := recs[i].offset;
      }
    }
    assert recs[..|recs|] == recs;
  }

  method FetchBelow(info: PartitionInfo, cursor: Cursor, window: nat, polls: map<PartitionId, seq<Poll>>)
    returns (recs: Result<seq<Record>, FetchError>)
    ensures recs == FetchOf(info, cursor, window, polls)
  {
    var p := info.partition;
    var high := High(cursor, p);
    if high <= info.begin {
      return Ok([]);
    }
    recs := FetchPartitionForward(if p in polls then polls[p] else [], Low(info.begin, high, window), high, window);
  }

  lemma {:induction false} FetchFailsWithPollError(info: PartitionInfo, c: Cursor, window: nat,
        polls: map<PartitionId, seq<Poll>>)
    ensures FetchOf(info, c, window, polls).Err? ==> FetchOf(info, c, window, polls) == Err(PollError)
  {
  }

  /** What the fetch loop has gathered from the first `i` partitions. */
  ghost predicate Gathered(parts: seq<PartitionInfo>, i: nat, fetched: map<PartitionId, seq<Record>>, pool: seq<Record>,
        fetchedMin: map<PartitionId, Position>)
    requires i <= |parts|
  {
    && (forall j | 0 <= j < i && parts[j].partition in fetched :: parts[j].partition in fetchedMin)
    && pool == Pool(parts[..i], fetched)
    && (forall p | p in fetchedMin :: p in fetched && MinOffset(fetched[p], p) == Some(fetchedMin[p]))
  }

  lemma {:induction false} NothingGathered(parts: seq<PartitionInfo>, i: nat, fetched: map<PartitionId, seq<Record>>,
        pool: seq<Record>, fetchedMin: map<PartitionId, Position>)
    requires i < |parts| && Gathered(parts, i, fetched, pool, fetchedMin) && parts[i].partition !in fetched
    ensures Gathered(parts, i + 1, fetched, pool, fetchedMin)
  {
    assert parts[..i + 1][..i] == parts[..i];
  }

  lemma {:induction false} OneGathered(parts: seq<PartitionInfo>, i: nat, fetched: map<PartitionId, seq<Record>>,
        pool: seq<Record>, fetchedMin: map<PartitionId, Position>, low: Position)
    requires i < |parts| && Gathered(parts, i, fetched, pool, fetchedMin)
    requires var p := parts[i].partition; p in fetched && MinOffset(fetched[p], p) == Some(low)
    ensures var p := parts[i].partition; Gathered(parts, i + 1, fetched, pool + fetched[p], fetchedMin[p := low])
  {
    assert parts[..i + 1][..i] == parts[..i];
  }

  lemma {:induction false} AllGathered(parts: seq<PartitionInfo>, c: Cursor, window: nat,
        polls: map<PartitionId, seq<Poll>>, pool: seq<Record>, fetchedMin: map<PartitionId, Position>)
    requires Gathered(parts, |parts|, Fetched(parts, c, window, polls), pool, fetchedMin)
    ensures pool == Pool(parts, Fetched(parts, c, window, polls))
    ensures fetchedMin.Keys == Fetched(parts, c, window, polls).Keys
  {
    assert parts[..|parts|] == parts;
    FetchedKeys(parts, c, window, polls);
  }

  /** The fetch loop: it stops at the first failing partition. */
  method FetchAll(parts: seq<PartitionInfo>, cursor: Cursor, window: nat, polls: map<PartitionId, seq<Poll>>)
    returns (err: Option<FetchError>, pool: seq<Record>, fetchedMin: map<PartitionId, Position>)
    requires DistinctPartitions(parts)
    requires Tagged(Fetched(parts, cursor, window, polls))
    ensures err.Some? <==> exists info | info in parts :: FetchOf(info, cursor, window, polls).Err?
    ensures err.Some? ==> err == Some(PollError)
    ensures err.None? ==>
      var fetched := Fetched(parts, cursor, window, polls);
      && pool == Pool(parts, fetched)
      && fetchedMin.Keys == fetched.Keys
      && forall p | p in fetched :: MinOffset(fetched[p], p) == Some(fetchedMin[p])
  {
    pool, fetchedMin := [], map[];
    ghost var fetched := Fetched(parts, cursor, window, polls);
    for i := 0 to |parts|
      invariant forall j | 0 <= j < i :: FetchOf(parts[j], cursor, window, polls).Ok?
      invariant Gathered(parts, i, fetched, pool, fetchedMin)
    {
      var info := parts[i];
      FetchedAt(parts, i, cursor, window, polls);
      var recs := FetchBelow(info, cursor, window, polls);
      if recs.Err? {
        assert info in parts;
        FetchFailsWithPollError(info, cursor, window, polls);
        return Some(recs.error), [], map[];
      }
      if |recs.value| > 0 {
        var minOff := LowestOffset(recs.value, info.partition);
        OneGathered(parts, i, fetched, pool, fetchedMin, minOff);
        fetchedMin := fetchedMin[info.partition := minOff];
        pool := pool + recs.value;
      } else {
        NothingGathered(parts, i, fetched, pool, fetchedMin);
      }
    }
    AllGathered(parts, cursor, window, polls, pool, fetchedMin);
    return None, pool, fetchedMin;
  }

  /** A partition's entry in the fetch result is its own fetch. */
  lemma {:induction false} FetchedAt(parts: seq<PartitionInfo>, i: nat, c: Cursor, window: nat,
        polls: map<PartitionId, seq<Poll>>)
    requires DistinctPartitions(parts) && i < |parts|
    ensures var (f, p) := (Fetched(parts, c, window, polls), parts[i].partition);
      match FetchOf(parts[i], c, window, polls)
      case Ok(recs) => if recs == [] then p !in f else p in f && f[p] == recs
      case Err(_) => p !in f
  {
    var init := parts[..|parts| - 1];
    if i < |init| {
      FetchedAt(init, i, c, window, polls);
    } else {
      FetchedKeys(init, c, window, polls);
    }
  }

  lemma {:induction false} FetchedKeys(parts: seq<PartitionInfo>, c: Cursor, window: nat,
        polls: map<PartitionId, seq<Poll>>)
    ensures forall p | p in Fetched(parts, c, window, polls) :: exists i | 0 <= i < |parts| :: parts[i].partition == p
  {
    if parts != [] {
      FetchedKeys(parts[..|parts| - 1], c, window, polls);
      assert forall i | 0 <= i < |parts| - 1 :: parts[..|parts| - 1][i] == parts[i];
    }
  }

  method LowestOnPage(page: seq<Record>) returns (inBatch: map<PartitionId, Position>)
    ensures forall p: PartitionId :: p in inBatch <==> MinOffset(page, p).Some?
    ensures forall p | p in inBatch :: MinOffset(page, p) == Some(inBatch[p])
  {
    inBatch := map[];
    for i := 0 to |page|
      invariant forall p: PartitionId :: p in inBatch <==> MinOffset(page[..i], p).Some?
      invariant forall p | p in inBatch :: MinOffset(page[..i], p) == Some(inBatch[p])
    {
      var r := page[i];
      assert page[..i + 1][..i] == page[..i];
      if r.partition !in inBatch || r.offset < inBatch[r.partition] {
        inBatch := inBatch[r.partition := r.offset];
      }
    }
    assert page[..|page|] == page;
  }

  /** Lowers every entry of `lows` that is not in `except`, in whatever order the map is walked. */
  method LowerTo(start: Cursor, lows: map<PartitionId, Position>, except: set<PartitionId>) returns (cursor: Cursor)
    requires lows.Keys - except <= start.Keys
    ensures LoweredBy(start, lows, except, cursor)
  {
    cursor := start;
    var todo := lows.Keys;
    while todo != {}
      invariant todo <= lows.Keys && cursor.Keys == start.Keys
      invariant forall p | p in cursor ::
        cursor[p] == if p in lows && p !in todo && p !in except && lows[p] < start[p] then lows[p] else start[p]
      decreases todo
    {
      var p :| p in todo;
      todo := todo - {p};
      if p !in except {
        if p !in cursor || lows[p] < cursor[p] {
          cursor := cursor[p := lows[p]];
        }
      }
    }
  }

  method AnyLeft(parts: seq<PartitionInfo>, cursor: Cursor) returns (hasMore: bool)
    ensures hasMore <==> exists info | info in parts :: High(cursor, info.partition) > info.begin
  {
    for i := 0 to |parts|
      invariant forall j | 0 <= j < i :: High(cursor, parts[j].partition) <= parts[j].begin
    {
      if High(cursor, parts[i].partition) > parts[i].begin {
        return true;
      }
    }
    return false;
  }

  method SortedPage(pool: seq<Record>, limit: nat) returns (page: seq<Record>)
    requires Distinct(pool)
    ensures page == Take(Newest(pool), limit) && InPageOrder(page)
  {
    var records := new Record[|pool|](i requires 0 <= i < |pool| => pool[i]);
    assert records[..] == pool;
    SortMessagesNewestFirst(records);
    page := if records.Length > limit then records[..limit] else records[..];
  }

  ghost function CursorFor(parts: seq<PartitionInfo>, d: Decoded): Cursor
    requires !d.Invalid?
  {
    if d.Absent? then EndCursor(parts) else d.cursor
  }

  /**
   * The whole call. `seen` is the reading of the token that was used; the broker's answers are `listed` and `polls`.
   */
  method TailMessages(limit: int, listed: Result<seq<PartitionInfo>, FetchError>, cursorParam: string,
        polls: map<PartitionId, seq<Poll>>)
    returns (r: Result<TailResult, FetchError>, ghost seen: Decoded)
    requires listed.Ok? ==> DistinctPartitions(listed.value)
    requires forall p, poll, x | p in polls && poll in polls[p] && poll.Batch? && x in poll.records :: x.partition == p
    ensures DecodesTo(cursorParam, seen)
    ensures listed.Err? ==> r == Err(listed.error)
    ensures listed.Ok? && seen.Invalid? ==> r == Err(InvalidCursor)
    ensures listed.Ok? && !seen.Invalid? ==>
      var (cursor, size) := (CursorFor(listed.value, seen), PageLimit(limit));
      if exists info | info in listed.value :: FetchOf(info, cursor, Window(size), polls).Err?
      then r == Err(PollError)
      else
        var call := Call(listed.value, cursor, size, Fetched(listed.value, cursor, Window(size), polls));
        r == Ok(TailResult(Items(call), HasMore(call), Token(Next(call))))
    ensures r.Ok? ==> InPageOrder(r.value.items) && |r.value.items| <= if 1 <= limit <= 500 then limit else 50
  {
    var decoded := DecodeTailCursor(cursorParam);
    seen := decoded;
    if listed.Err? {
      return Err(listed.error), seen;
    }
    var parts, size := listed.value, PageLimit(limit);
    if decoded.Invalid? {
      return Err(InvalidCursor), seen;
    }
    var cursor: Cursor;
    if decoded.Absent? {
      cursor := StartCursor(parts);
    } else {
      cursor := decoded.cursor;
    }
    FetchesAreTagged(parts, cursor, Window(size), polls);
    OnlyCursorsAreFetched(parts, cursor, Window(size), polls);
    var err, pool, fetchedMin := FetchAll(parts, cursor, Window(size), polls);
    if err.Some? {
      return Err(err.value), seen;
    }
    var page := CutPage(Call(parts, cursor, size, Fetched(parts, cursor, Window(size), polls)), parts, cursor, size,
      pool, fetchedMin);
    return Ok(page), seen;
  }

  /** From the fetched records to the answer: dedupe, sort, cut, lower the cursor, look for more. */
  method CutPage(ghost call: Call, parts: seq<PartitionInfo>, start: Cursor, size: nat, fetchedPool: seq<Record>,
        fetchedMin: map<PartitionId, Position>)
    returns (r: TailResult)
    requires parts == call.parts && start == call.cursor && size == call.limit &&
      fetchedPool == Pool(call.parts, call.fetched)
    requires Tagged(call.fetched) && call.fetched.Keys <= start.Keys && fetchedMin.Keys == call.fetched.Keys
    requires forall p | p in call.fetched :: MinOffset(call.fetched[p], p) == Some(fetchedMin[p])
    ensures r == TailResult(Items(call), HasMore(call), Token(Next(call)))
    ensures InPageOrder(r.items) && |r.items| <= size
  {
    var pool := DedupeMessages(fetchedPool);
    DedupeKeepsOneOfEach(fetchedPool);
    var page := SortedPage(pool, size);
    var inBatch := LowestOnPage(page);
    OnlyFetchedArePaged(call);
    var dropped := LowerTo(start, fetchedMin, inBatch.Keys);
    var cursor := LowerTo(dropped, inBatch, {});
    LoweringIsNext(call, fetchedMin, inBatch, dropped, cursor);
    var hasMore := AnyLeft(parts, cursor);
    var token := EncodeTailCursor(cursor);
    return TailResult(page, hasMore, token);
  }

  ghost predicate LoweredBy(start: Cursor, lows: map<PartitionId, Position>, except: set<PartitionId>, cursor: Cursor) {
    cursor.Keys == start.Keys && forall p | p in cursor ::
      cursor[p] == if p in lows && p !in except && lows[p] < start[p] then lows[p] else start[p]
  }

  lemma {:induction false} LoweringIsNext(call: Call, fetchedMin: map<PartitionId, Position>,
        inBatch: map<PartitionId, Position>, dropped: Cursor, cursor: Cursor)
    requires fetchedMin.Keys == call.fetched.Keys
    requires forall p | p in call.fetched :: MinOffset(call.fetched[p], p) == Some(fetchedMin[p])
    requires forall p: PartitionId :: p in inBatch <==> MinOffset(Items(call), p).Some?
    requires forall p | p in inBatch :: MinOffset(Items(call), p) == Some(inBatch[p])
    requires LoweredBy(call.cursor, fetchedMin, inBatch.Keys, dropped) && LoweredBy(dropped, inBatch, {}, cursor)
    ensures cursor == Next(call)
  {
  }

  lemma {:induction false} BelowMembers(s: seq<Record>, end: int)
    ensures forall r | r in Below(s, end) :: r in s && r.offset < end
  {
    if s != [] {
      BelowMembers(s[..|s| - 1], end);
    }
  }

  lemma {:induction false} StreamMembers(polls: seq<Poll>, end: int)
    ensures forall r | r in Stream(polls, end) ::
      r.offset < end && exists poll | poll in polls :: poll.Batch? && r in poll.records
  {
    if polls != [] && polls[0].Batch? {
      BelowMembers(polls[0].records, end);
      StreamMembers(polls[1..], end);
      assert polls[0] in polls;
      assert forall poll | poll in polls[1..] :: poll in polls;
    }
  }

  lemma {:induction false} FetchesAreTagged(parts: seq<PartitionInfo>, c: Cursor, window: nat,
        polls: map<PartitionId, seq<Poll>>)
    requires forall p, poll, x | p in polls && poll in polls[p] && poll.Batch? && x in poll.records :: x.partition == p
    ensures Tagged(Fetched(parts, c, window, polls))
  {
    if parts != [] {
      FetchesAreTagged(parts[..|parts| - 1], c, window, polls);
      var info := parts[|parts| - 1];
      if info.partition in polls {
        StreamMembers(polls[info.partition], High(c, info.partition));
      }
    }
  }

  lemma {:induction false} OnlyCursorsAreFetched(parts: seq<PartitionInfo>, c: Cursor, window: nat,
        polls: map<PartitionId, seq<Poll>>)
    ensures Fetched(parts, c, window, polls).Keys <= c.Keys
  {
    if parts != [] {
      OnlyCursorsAreFetched(parts[..|parts| - 1], c, window, polls);
    }
  }

  lemma {:induction false} PoolMembers(parts: seq<PartitionInfo>, fetched: map<PartitionId, seq<Record>>)
    ensures forall r :: r in Pool(parts, fetched) <==>
      exists info | info in parts :: info.partition in fetched && r in fetched[info.partition]
  {
    if parts != [] {
      var init, last := parts[..|parts| - 1], parts[|parts| - 1];
      PoolMembers(init, fetched);
      assert parts == init + [last];
    }
  }

  lemma {:induction false} MinOffsetFacts(s: seq<Record>, p: PartitionId)
    ensures MinOffset(s, p).Some? <==> exists r | r in s :: r.partition == p
    ensures MinOffset(s, p).Some? ==> exists r | r in s :: r.partition == p && r.offset == MinOffset(s, p).value
    ensures forall r | r in s && r.partition == p :: MinOffset(s, p).Some? && MinOffset(s, p).value <= r.offset
  {
    if s != [] {
      var init, last := s[..|s| - 1], s[|s| - 1];
      MinOffsetFacts(init, p);
      assert s == init + [last];
    }
  }

  lemma {:induction false} ItemsComeFromPool(call: Call)
    ensures forall r | r in Items(call) :: r in Pool(call.parts, call.fetched)
  {
    DedupeKeepsOneOfEach(Pool(call.parts, call.fetched));
  }

  lemma {:induction false} OnlyFetchedArePaged(call: Call)
    requires Tagged(call.fetched)
    ensures forall p: PartitionId :: MinOffset(Items(call), p).Some? ==> p in call.fetched
  {
    ItemsComeFromPool(call);
    PoolMembers(call.parts, call.fetched);
    forall p: PartitionId | MinOffset(Items(call), p).Some?
      ensures p in call.fetched
    {
      MinOffsetFacts(Items(call), p);
    }
  }
}
