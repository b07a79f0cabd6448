/** Reading one partition forwards from an offset, poll by poll. */
module ForwardFetch {
  import opened Wrappers
  import opened Records
  import opened KafkaLog

  /** One poll of the client library: it fails (broker error or deadline) or hands over a batch. */
  datatype Poll = Failed | Batch(records: seq<Record>)

  datatype FetchError = PollError | OffsetsError | ListError | InvalidCursor

  function Below(s: seq<Record>, end: int): seq<Record> {
    if s == [] then []
    else Below(s[..|s| - 1], end) + (if s[|s| - 1].offset < end then [s[|s| - 1]] else [])
  }

  function Take(s: seq<Record>, n: int): seq<Record> {
    if n < 0 then [] else if n < |s| then s[..n] else s
  }

  /**
   * What a run of polls yields below `end`: it stops at a failure, at the last poll, or at a poll with nothing
   * useful.
   */
  function Stream(polls: seq<Poll>, end: int): seq<Record> {
    if polls == [] || polls[0].Failed? || Below(polls[0].records, end) == [] then []
    else Below(polls[0].records, end) + Stream(polls[1..], end)
  }

  function Forward(polls: seq<Poll>, start: int, end: int, limit: int): Result<seq<Record>, FetchError> {
    if limit <= 0 || start >= end then Ok([])
    else if polls == [] || polls[0].Failed? then Err(PollError)
    else Ok(Take(Stream(polls, end), limit))
  }

  /**
   * The callback run over every record of a poll: records at or past `endOffset`, or over the limit, are passed over.
   */
  method AppendEach(records: seq<Record>, batch: seq<Record>, endOffset: int, limit: nat) returns (out: seq<Record>)
    requires |records| <= limit
    ensures out == Take(records + Below(batch, endOffset), limit)
  {
    out := records;
    for i := 0 to |batch|
      invariant out == Take(records + Below(batch[..i], endOffset), limit)
    {
      assert batch[..i + 1][..i] == batch[..i];
      if |out| < limit && batch[i].offset < endOffset {
        out := out + [batch[i]];
      }
    }
    assert batch[..|batch|] == batch;
  }

  lemma {:induction false} TakeTwice(s: seq<Record>, t: seq<Record>, u: seq<Record>, n: nat)
    requires |s| <= n
    ensures Take(Take(s + t, n) + u, n) == Take(s + (t + u), n)
  {
  }

  /** Polls beyond the given ones count as failed: the fetch deadline has passed. */
  method FetchPartitionForward(polls: seq<Poll>, startOffset: int, endOffset: int, limit: int)
    returns (r: Result<seq<Record>, FetchError>)
    ensures r == Forward(polls, startOffset, endOffset, limit)
  {
    if limit <= 0 || startOffset >= endOffset {
      return Ok([]);
    }
    ghost var whole := Take(Stream(polls, endOffset), limit);
    var records: seq<Record>, pending := [], polls;
    assert records + Stream(pending, endOffset) == Stream(pending, endOffset);
    while |records| < limit
      invariant |records| <= limit
      invariant records == [] ==> pending == polls
      invariant records != [] ==> polls != [] && polls[0].Batch?
      invariant Take(records + Stream(pending, endOffset), limit) == whole
      decreases pending
    {
      if pending == [] || pending[0].Failed? {
        assert records + Stream(pending, endOffset) == records;
        return if |records| > 0 then Ok(records) else Err(PollError);
      }
      var batch := pending[0].records;
      var more := AppendEach(records, batch, endOffset, limit);
      if |more| == |records| {
        assert records + Stream(pending, endOffset) == records;
        return Ok(more);
      }
      TakeTwice(records, Below(batch, endOffset), Stream(pending[1..], endOffset), limit);
      records, pending := more, pending[1..];
    }
    assert Take(records + Stream(pending, endOffset), limit) == records;
    return Ok(records);
  }

  /** The broker's promise: batches up to the first failure are consecutive pieces of the log, in order. */
  ghost predicate Delivers(polls: seq<Poll>, rest: seq<Record>) {
    polls == [] || polls[0].Failed? ||
    (polls[0].records <= rest && Delivers(polls[1..], rest[|polls[0].records|..]))
  }

  /** Non-empty polls keep coming until `limit` records are read or nothing is left below `end`. */
  ghost predicate Exhausts(polls: seq<Poll>, rest: seq<Record>, end: int, limit: int)
    decreases polls
  {
    limit <= 0 || Below(rest, end) == [] ||
    (polls != [] && polls[0].Batch? && polls[0].records != [] && polls[0].records <= rest &&
     Exhausts(polls[1..], rest[|polls[0].records|..], end, limit - |Below(polls[0].records, end)|))
  }

  lemma {:induction false} BelowSplit(s: seq<Record>, t: seq<Record>, end: int)
    ensures Below(s + t, end) == Below(s, end) + Below(t, end)
  {
    if t == [] {
      assert s + t == s;
    } else {
      BelowSplit(s, t[..|t| - 1], end);
      assert (s + t)[..|s + t| - 1] == s + t[..|t| - 1];
    }
  }

  /** In offset order, nothing is below `end` exactly when the first record is not. */
  lemma {:induction false} BelowStartsAtFirst(s: seq<Record>, end: int)
    requires Ascending(s) && s != []
    ensures Below(s, end) == [] <==> s[0].offset >= end
  {
    if |s| > 1 {
      BelowStartsAtFirst(s[..|s| - 1], end);
    } else {
      assert s[..0] == [];
    }
  }

  lemma {:induction false} StreamIsPrefix(polls: seq<Poll>, rest: seq<Record>, end: int)
    requires Delivers(polls, rest)
    ensures Stream(polls, end) <= Below(rest, end)
    decreases polls
  {
    if polls != [] && polls[0].Batch? {
      var batch := polls[0].records;
      var later := rest[|batch|..];
      BelowSplit(batch, later, end);
      assert rest == batch + later;
      StreamIsPrefix(polls[1..], later, end);
      PrefixAfter(Below(batch, end), Stream(polls[1..], end), Below(later, end));
    }
  }

  lemma {:induction false} PrefixAfter(s: seq<Record>, t: seq<Record>, u: seq<Record>)
    requires t <= u
    ensures s + t <= s + u
  {
  }

  lemma {:induction false} TakeOfPrefix(s: seq<Record>, t: seq<Record>, n: nat)
    requires s <= t
    ensures Take(s, n) == Take(t, n) <==> |s| >= n || |s| == |t|
  {
  }

  /** A batch read while records are left below `end` contributes some of them. */
  lemma {:induction false} UsefulBatch(batch: seq<Record>, rest: seq<Record>, end: int)
    requires Ascending(rest) && batch <= rest && batch != [] && Below(rest, end) != []
    ensures Below(batch, end) != [] && Ascending(rest[|batch|..])
    ensures |Below(rest, end)| == |Below(batch, end)| + |Below(rest[|batch|..], end)|
  {
    assert rest == batch + rest[|batch|..];
    BelowSplit(batch, rest[|batch|..], end);
    BelowStartsAtFirst(rest, end);
    BelowStartsAtFirst(batch, end);
  }

  /** Enough was read for the limit, or all there is. */
  ghost predicate EnoughRead(got: nat, all: nat, limit: int) {
    got >= limit || got == all
  }

  lemma {:induction false} ReadsOn(polls: seq<Poll>, rest: seq<Record>, end: int, limit: int)
    requires Ascending(rest) && Delivers(polls, rest) && limit > 0 && Below(rest, end) != []
    requires polls != [] && polls[0].Batch? && polls[0].records != []
    ensures var (later, useful) := (rest[|polls[0].records|..], |Below(polls[0].records, end)|);
      && Ascending(later) && Delivers(polls[1..], later)
      && |Stream(polls, end)| == useful + |Stream(polls[1..], end)|
      && |Below(rest, end)| == useful + |Below(later, end)|
      && (Exhausts(polls, rest, end, limit) <==> Exhausts(polls[1..], later, end, limit - useful))
  {
    UsefulBatch(polls[0].records, rest, end);
  }

  lemma {:induction false} ReadsNoMore(polls: seq<Poll>, rest: seq<Record>, end: int, limit: int)
    requires Delivers(polls, rest)
    requires limit <= 0 || Below(rest, end) == [] || polls == [] || polls[0].Failed? || polls[0].records == []
    ensures EnoughRead(|Stream(polls, end)|, |Below(rest, end)|, limit) <==> Exhausts(polls, rest, end, limit)
  {
    if limit <= 0 || Below(rest, end) == [] {
      StreamIsPrefix(polls, rest, end);
    }
  }

  lemma {:induction false} CompleteExactlyWhenExhausted(polls: seq<Poll>, rest: seq<Record>, end: int, limit: int)
    requires Ascending(rest) && Delivers(polls, rest)
    ensures EnoughRead(|Stream(polls, end)|, |Below(rest, end)|, limit) <==> Exhausts(polls, rest, end, limit)
    decreases polls
  {
    if limit <= 0 || Below(rest, end) == [] || polls == [] || polls[0].Failed? || polls[0].records == [] {
      ReadsNoMore(polls, rest, end, limit);
    } else {
      ReadsOn(polls, rest, end, limit);
      var later, useful := rest[|polls[0].records|..], |Below(polls[0].records, end)|;
      CompleteExactlyWhenExhausted(polls[1..], later, end, limit - useful);
    }
  }

  /** What a fetch promises, for any batching and any failure point. */
  lemma {:induction false} FetchReturnsPrefix(l: Log, p: PartitionId, polls: seq<Poll>, start: nat, end: int,
        limit: int)
    requires Delivers(polls, DataIn(l, p, start, |l.slots|))
    ensures limit <= 0 || start >= end ==> Forward(polls, start, end, limit) == Ok([])
    ensures limit > 0 && start < end ==> (Forward(polls, start, end, limit).Err? <==> polls == [] || polls[0].Failed?)
    ensures limit > 0 && start < end && Forward(polls, start, end, limit).Ok? ==>
      var got := Forward(polls, start, end, limit).value;
      && got <= DataIn(l, p, start, end)
      && |got| <= limit
      && (got == Take(DataIn(l, p, start, end), limit) <==> Exhausts(polls, DataIn(l, p, start, |l.slots|), end, limit))
  {
    if limit > 0 && start < end {
      var rest := DataIn(l, p, start, |l.slots|);
      DataInMembers(l, p, start, |l.slots|);
      StreamIsPrefix(polls, rest, end);
      CompleteExactlyWhenExhausted(polls, rest, end, limit);
      TakeOfPrefix(Stream(polls, end), Below(rest, end), limit);
      BelowIsRange(l, p, start, end);
    }
  }

  lemma {:induction false} BelowIsRange(l: Log, p: PartitionId, start: nat, end: int)
    ensures Below(DataIn(l, p, start, |l.slots|), end) == DataIn(l, p, start, end)
    decreases |l.slots| - start
  {
    if start < |l.slots| {
      var head := if HasRecord(l, start) then [RecordAt(l, p, start)] else [];
      BelowSplit(head, DataIn(l, p, start + 1, |l.slots|), end);
      BelowIsRange(l, p, start + 1, end);
      if start >= end {
        assert DataIn(l, p, start + 1, end) == [];
      }
    }
  }
}
