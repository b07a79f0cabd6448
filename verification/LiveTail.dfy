/** The live tail: a loop that polls one partition from the last offset it sent, while the log moves underneath. */
module LiveTail {
  import opened Wrappers
  import opened Records
  import opened KafkaLog
  import opened ForwardFetch
  import opened MessagesView
  import opened Runs

  // ---------------------------------------------------------------- reading from an offset

  datatype Bounds = Bounds(begin: nat, end: nat)

  function FetchSize(limit: int): nat {
    if limit <= 0 || limit > 500 then 100 else limit
  }

  function FetchFrom(listed: Result<Bounds, FetchError>, polls: seq<Poll>, start: int, limit: int)
    : Result<seq<Record>, FetchError>
  {
    match listed
    case Err(e) => Err(e)
    case Ok(b) =>
      if start >= b.end then Ok([])
      else Forward(polls, if start < b.begin then b.begin else start, b.end, FetchSize(limit))
  }

  function Fetch(first: Result<Bounds, FetchError>, second: Result<Bounds, FetchError>, polls: seq<Poll>, offset: int,
        limit: int)
    : Result<seq<Record>, FetchError>
  {
    if offset >= 0 then FetchFrom(second, polls, offset, limit)
    else
      match first
      case Err(e) => Err(e)
      case Ok(b) => FetchFrom(second, polls, b.begin, limit)
  }

  /**
   * What comes of reading `l` through `polls` from an offset: nothing at or past the end; else an error exactly when
   * the first poll fails, and otherwise the oldest of the retained records from the offset on, wherever the offset lies
   * below, as many at most as asked for, and all of those exactly when polls go on to exhaustion.
   */
  ghost predicate ReadFrom(l: Log, p: PartitionId, polls: seq<Poll>, offset: int, limit: int,
        r: Result<seq<Record>, FetchError>) {
    var size := if 1 <= limit <= 500 then limit else 100;
    var start := if offset < l.begin then l.begin else offset;
    var rest := DataIn(l, p, start, |l.slots|);
    if start >= |l.slots| then r == Ok([])
    else
      Delivers(polls, rest) ==>
        if polls == [] || polls[0].Failed? then r == Err(PollError)
        else
          && r.Ok? && r.value <= rest && |r.value| <= size
          && (|r.value| == size || |r.value| == |rest| <==> Exhausts(polls, rest, |l.slots|, size))
  }

  /** The bounds are those of `l`; those listed first, if any were needed, are of the same log no later. */
  ghost predicate BoundsAreOf(first: Result<Bounds, FetchError>, second: Result<Bounds, FetchError>, offset: int,
        l: Log) {
    && second == Ok(Bounds(l.begin, |l.slots|))
    && (offset < 0 ==> first.Ok? && first.value.begin <= l.begin)
  }

  lemma {:induction false} FetchReadsFrom(first: Result<Bounds, FetchError>, second: Result<Bounds, FetchError>,
        polls: seq<Poll>, offset: int, limit: int, l: Log, p: PartitionId)
    requires BoundsAreOf(first, second, offset, l)
    ensures ReadFrom(l, p, polls, offset, limit, Fetch(first, second, polls, offset, limit))
  {
    var start, size := if offset < l.begin then l.begin else offset, FetchSize(limit);
    if start < |l.slots| && Delivers(polls, DataIn(l, p, start, |l.slots|)) {
      FetchReturnsPrefix(l, p, polls, start, |l.slots|, size);
      var r := Forward(polls, start, |l.slots|, size);
      if r.Ok? {
        TakeOfPrefix(r.value, DataIn(l, p, start, |l.slots|), size);
      }
    }
  }

  /** A negative offset asks for the log from its begin, and lists the bounds once more than an ordinary one. */
  method FetchMessages(first: Result<Bounds, FetchError>, second: Result<Bounds, FetchError>, polls: seq<Poll>,
        offset: int, limit: int)
    returns (r: Result<seq<Record>, FetchError>)
    ensures r == Fetch(first, second, polls, offset, limit)
    ensures offset < 0 && first.Err? ==> r == Err(first.error)
    ensures second.Err? && (offset < 0 ==> first.Ok?) ==> r == Err(second.error)
    ensures forall l: Log, p: PartitionId | BoundsAreOf(first, second, offset, l) ::
      ReadFrom(l, p, polls, offset, limit, r)
  {
    forall l: Log, p: PartitionId | BoundsAreOf(first, second, offset, l)
      ensures ReadFrom(l, p, polls, offset, limit, Fetch(first, second, polls, offset, limit))
    {
      FetchReadsFrom(first, second, polls, offset, limit, l, p);
    }
    var size := if limit <= 0 || limit > 500 then 100 else limit;
    var start := offset;
    if start < 0 {
      if first.Err? {
        return Err(first.error);
      }
      start := first.value.begin;
    }
    if second.Err? {
      return Err(second.error);
    }
    var begin, end := second.value.begin, second.value.end;
    if start >= end {
      return Ok([]);
    }
    if start < begin {
      start := begin;
    }
    r := FetchPartitionForward(polls, start, end, size);
  }

  // ---------------------------------------------------------------- the loop

  const TICK_LIMIT: nat := 20

  datatype State = State(lastOffset: int, sent: seq<Record>)

  const FRESH := State(-1, [])

  /** Records at or below the last offset are passed over. */
  function Send(s: State, m: Record): State {
    if m.offset <= s.lastOffset then s else State(m.offset, s.sent + [m])
  }

  ghost function Push(s: State, msgs: seq<Record>): State {
    Run(Send, s, msgs)
  }

  ghost function Ticked(s: State, first: Result<Bounds, FetchError>, second: Result<Bounds, FetchError>,
        polls: seq<Poll>): State {
    match Fetch(first, second, polls, s.lastOffset + 1, TICK_LIMIT)
    case Ok(msgs) => Push(s, msgs)
    case Err(_) => s
  }

  /** One connection. `sent` is what was written to the socket. */
  class LiveTail {
    var lastOffset: int
    var sent: seq<Record>

    ghost function Now(): State
      reads this
    {
      State(lastOffset, sent)
    }

    constructor ()
      ensures Now() == FRESH
    {
      lastOffset, sent := -1, [];
    }

    method Tick(first: Result<Bounds, FetchError>, second: Result<Bounds, FetchError>, polls: seq<Poll>)
      modifies this
      ensures Now() == Ticked(old(Now()), first, second, polls)
    {
      var msgs := FetchMessages(first, second, polls, lastOffset + 1, TICK_LIMIT);
      if msgs.Err? {
        return;
      }
      var batch := msgs.value;
      for i := 0 to |batch|
        invariant Now() == Push(old(Now()), batch[..i])
      {
        assert batch[..i + 1][..i] == batch[..i];
        if batch[i].offset > lastOffset {
          lastOffset := batch[i].offset;
          sent := sent + [batch[i]];
        }
      }
      assert batch[..|batch|] == batch;
    }
  }

  // ---------------------------------------------------------------- a log that moves between and during polls

  /** Appends, retention, and compaction that empties slots. */
  ghost predicate LogEvolves(l: Log, k: Log) {
    && l.begin <= k.begin && |l.slots| <= |k.slots|
    && forall o | 0 <= o < |l.slots| :: k.slots[o] == l.slots[o] || k.slots[o] == Hole
  }

  function NextAt(got: seq<Record>, at: int): int {
    if got == [] then at else got[|got| - 1].offset + 1
  }

  function Start(at: nat, l: Log): nat {
    if at < l.begin then l.begin else at
  }

  /**
   * Every poll up to the first failure is answered from its own log, at the position reached or where retention put
   * it.
   */
  ghost predicate Answered(polls: seq<Poll>, logs: seq<Log>, at: nat, p: PartitionId)
    decreases polls
  {
    polls == [] || polls[0].Failed? ||
    (logs != [] && polls[0].records <= DataIn(logs[0], p, Start(at, logs[0]), |logs[0].slots|)
     && Answered(polls[1..], logs[1..], NextAt(polls[0].records, at), p))
  }

  function AllRead(polls: seq<Poll>): seq<Record> {
    if polls == [] || polls[0].Failed? then [] else polls[0].records + AllRead(polls[1..])
  }

  /** `r` is the record of its slot, unless the slot was compacted since. */
  predicate Stored(l: Log, p: PartitionId, r: Record) {
    && r.partition == p && r.offset < |l.slots|
    && (l.slots[r.offset] == Hole || r == RecordAt(l, p, r.offset))
  }

  ghost predicate AllStored(s: seq<Record>, l: Log, p: PartitionId, from: int) {
    forall r | r in s :: from <= r.offset && Stored(l, p, r)
  }

  /** Every record the log still holds from `from` up to the last one of `s` is in `s`. */
  ghost predicate Covers(s: seq<Record>, from: int, l: Log, p: PartitionId) {
    forall o | from <= o < NextAt(s, from) && l.begin <= o && HasRecord(l, o) :: RecordAt(l, p, o) in s
  }

  /** In offset order from `from`, genuine, and with nothing left out but what retention or compaction took. */
  ghost predicate Gapless(s: seq<Record>, from: int, l: Log, p: PartitionId) {
    Ascending(s) && AllStored(s, l, p, from) && Covers(s, from, l, p)
  }

  lemma {:induction false} NextAtBounds(s: seq<Record>, from: int)
    requires Ascending(s)
    ensures forall r | r in s :: r.offset < NextAt(s, from)
  {
  }

  lemma {:induction false} AscendingJoin(s: seq<Record>, t: seq<Record>, mid: int)
    requires Ascending(s) && Ascending(t)
    requires forall r | r in s :: r.offset < mid
    requires forall r | r in t :: mid <= r.offset
    ensures Ascending(s + t)
  {
    forall i, j | 0 <= i < j < |s + t|
      ensures (s + t)[i].offset < (s + t)[j].offset
    {
      if i < |s| <= j {
        assert s[i] in s && t[j - |s|] in t;
      }
    }
  }

  lemma {:induction false} CoversJoin(s: seq<Record>, t: seq<Record>, from: int, l: Log, p: PartitionId)
    requires Covers(s, from, l, p) && Covers(t, NextAt(s, from), l, p)
    ensures NextAt(s + t, from) == NextAt(t, NextAt(s, from))
    ensures Covers(s + t, from, l, p)
  {
    if t == [] {
      assert s + t == s;
    }
  }

  lemma {:induction false} StoredJoin(s: seq<Record>, t: seq<Record>, from: int, l: Log, p: PartitionId)
    requires AllStored(s, l, p, from) && AllStored(t, l, p, NextAt(s, from))
    ensures AllStored(s + t, l, p, from)
  {
    assert s != [] ==> s[|s| - 1] in s;
  }

  lemma {:induction false} GaplessJoin(s: seq<Record>, t: seq<Record>, from: int, l: Log, p: PartitionId)
    requires Gapless(s, from, l, p) && Gapless(t, NextAt(s, from), l, p)
    ensures Gapless(s + t, from, l, p) && NextAt(s + t, from) == NextAt(t, NextAt(s, from))
  {
    NextAtBounds(s, from);
    AscendingJoin(s, t, NextAt(s, from));
    StoredJoin(s, t, from, l, p);
    CoversJoin(s, t, from, l, p);
  }

  lemma {:induction false} GaplessPrefix(s: seq<Record>, n: nat, from: int, l: Log, p: PartitionId)
    requires Gapless(s, from, l, p) && n <= |s|
    ensures Gapless(s[..n], from, l, p)
  {
  }

  lemma {:induction false} GaplessLater(s: seq<Record>, from: int, l: Log, k: Log, p: PartitionId)
    requires Gapless(s, from, l, p) && LogEvolves(l, k)
    ensures Gapless(s, from, k, p)
  {
    forall o | from <= o < NextAt(s, from) && k.begin <= o && HasRecord(k, o)
      ensures RecordAt(k, p, o) in s
    {
      assert s[|s| - 1] in s;
      assert RecordAt(l, p, o) in s;
    }
  }

  /** What retention removed before the read started does not count. */
  lemma {:induction false} GaplessFromEarlier(s: seq<Record>, from: int, start: int, l: Log, p: PartitionId)
    requires Gapless(s, start, l, p) && from <= start && (start == from || start <= l.begin)
    ensures Gapless(s, from, l, p)
  {
  }

  lemma {:induction false} OneAnswer(batch: seq<Record>, l: Log, at: nat, p: PartitionId)
    requires batch <= DataIn(l, p, Start(at, l), |l.slots|)
    ensures Gapless(batch, at, l, p) && NextAt(batch, at) >= at
  {
    var s := DataIn(l, p, Start(at, l), |l.slots|);
    DataInMembers(l, p, Start(at, l), |l.slots|);
    forall o | Start(at, l) <= o < NextAt(s, Start(at, l)) && l.begin <= o && HasRecord(l, o)
      ensures RecordAt(l, p, o) in s
    {
      assert InRange(l, p, Start(at, l), |l.slots|, RecordAt(l, p, o));
    }
    GaplessPrefix(s, |batch|, Start(at, l), l, p);
    GaplessFromEarlier(batch, at, Start(at, l), l, p);
    assert batch != [] ==> batch[|batch| - 1] in s;
  }

  lemma {:induction false} AnswersAreGapless(polls: seq<Poll>, logs: seq<Log>, at: nat, p: PartitionId, l: Log)
    requires Answered(polls, logs, at, p) && forall k | k in logs :: LogEvolves(k, l)
    ensures Gapless(AllRead(polls), at, l, p)
    decreases polls
  {
    if polls != [] && polls[0].Batch? {
      var batch := polls[0].records;
      OneAnswer(batch, logs[0], at, p);
      GaplessLater(batch, at, logs[0], l, p);
      AnswersAreGapless(polls[1..], logs[1..], NextAt(batch, at), p, l);
      GaplessJoin(batch, AllRead(polls[1..]), at, l, p);
    }
  }

  lemma {:induction false} AllReadDelivers(polls: seq<Poll>)
    ensures Delivers(polls, AllRead(polls))
    decreases polls
  {
    if polls != [] && polls[0].Batch? {
      AllReadDelivers(polls[1..]);
      assert AllRead(polls)[|polls[0].records|..] == AllRead(polls[1..]);
    }
  }

  lemma {:induction false} PrefixStep(s: seq<Record>, below: seq<Record>, end: int)
    requires s != [] && Ascending(s) && below <= s[..|s| - 1]
    requires below == s[..|s| - 1] || (|s| > 1 && s[|s| - 2].offset >= end)
    ensures var more := below + if s[|s| - 1].offset < end then [s[|s| - 1]] else [];
      more <= s && (more == s || s[|s| - 1].offset >= end)
  {
    assert |s| > 1 ==> s[|s| - 2].offset < s[|s| - 1].offset;
  }

  lemma {:induction false} AscendingInit(s: seq<Record>)
    requires s != [] && Ascending(s)
    ensures Ascending(s[..|s| - 1])
  {
  }

  lemma {:induction false} BelowIsPrefix(s: seq<Record>, end: int)
    requires Ascending(s)
    ensures Below(s, end) <= s
    ensures Below(s, end) == s || (s != [] && s[|s| - 1].offset >= end)
  {
    if s != [] {
      AscendingInit(s);
      BelowIsPrefix(s[..|s| - 1], end);
      PrefixStep(s, Below(s[..|s| - 1], end), end);
    }
  }

  lemma {:induction false} ForwardReadsPrefix(polls: seq<Poll>, at: nat, end: int, limit: int)
    requires Forward(polls, at, end, limit).Ok? && Ascending(AllRead(polls))
    ensures Forward(polls, at, end, limit).value <= AllRead(polls)
  {
    AllReadDelivers(polls);
    StreamIsPrefix(polls, AllRead(polls), end);
    BelowIsPrefix(AllRead(polls), end);
    TakeOfChain(Stream(polls, end), Below(AllRead(polls), end), AllRead(polls), limit);
  }

  lemma {:induction false} TakeOfChain(s: seq<Record>, t: seq<Record>, u: seq<Record>, n: int)
    requires s <= t <= u
    ensures Take(s, n) <= u
  {
  }

  /** Whatever a fetch returns, however it was cut short, is gapless from where it started. */
  lemma {:induction false} ForwardIsGapless(polls: seq<Poll>, logs: seq<Log>, at: nat, end: int, limit: int,
        p: PartitionId, l: Log)
    requires Answered(polls, logs, at, p) && forall k | k in logs :: LogEvolves(k, l)
    requires Forward(polls, at, end, limit).Ok?
    ensures Gapless(Forward(polls, at, end, limit).value, at, l, p)
  {
    AnswersAreGapless(polls, logs, at, p, l);
    assert Ascending(AllRead(polls));
    ForwardReadsPrefix(polls, at, end, limit);
    GaplessCut(Forward(polls, at, end, limit).value, AllRead(polls), at, l, p);
  }

  lemma {:induction false} GaplessCut(got: seq<Record>, all: seq<Record>, from: int, l: Log, p: PartitionId)
    requires got <= all && Gapless(all, from, l, p)
    ensures Gapless(got, from, l, p)
  {
  }

  // ---------------------------------------------------------------- every run

  /** One tick: the log its bounds were listed from, if they were; the polls and their logs; the log afterwards. */
  datatype TickStep = TickStep(listed: Option<Log>, polls: seq<Poll>, logs: seq<Log>, after: Log)

  function BoundsOf(listed: Option<Log>): Result<Bounds, FetchError> {
    match listed
    case Some(l) => Ok(Bounds(l.begin, |l.slots|))
    case None => Err(OffsetsError)
  }

  ghost function TickOf(s: State, t: TickStep): State {
    Ticked(s, BoundsOf(t.listed), BoundsOf(t.listed), t.polls)
  }

  ghost function StateAfter(run: seq<TickStep>): State {
    Run(TickOf, FRESH, run)
  }

  /** The logs a tick saw came before the log it left, and the broker answered its polls from them. */
  ghost predicate Genuine(t: TickStep, at: int, p: PartitionId) {
    && (forall k | k in t.logs :: LogEvolves(k, t.after))
    && (t.listed.Some? ==> LogEvolves(t.listed.value, t.after)
                           && at >= 0 && Answered(t.polls, t.logs, Start(at, t.listed.value), p))
  }

  /** Each tick is genuine at the offset the loop had reached, and its log comes after the one before. */
  ghost predicate History(run: seq<TickStep>, p: PartitionId) {
    run == [] ||
    var (init, last) := (run[..|run| - 1], run[|run| - 1]);
    && History(init, p)
    && Genuine(last, StateAfter(init).lastOffset + 1, p)
    && (init == [] || LogEvolves(init[|init| - 1].after, last.after))
  }

  ghost predicate Delivered(s: State, l: Log, p: PartitionId) {
    Gapless(s.sent, 0, l, p) && s.lastOffset + 1 == NextAt(s.sent, 0)
  }

  lemma {:induction false} PushInOrder(s: State, msgs: seq<Record>)
    requires Ascending(msgs) && forall m | m in msgs :: m.offset > s.lastOffset
    ensures Push(s, msgs) == State(NextAt(msgs, s.lastOffset + 1) - 1, s.sent + msgs)
  {
    if msgs == [] {
      assert s.sent + msgs == s.sent;
    } else {
      var init, last := msgs[..|msgs| - 1], msgs[|msgs| - 1];
      assert forall m | m in init :: m in msgs;
      PushInOrder(s, init);
      assert last in msgs && last.offset >= NextAt(init, s.lastOffset + 1) by {
        assert init != [] ==> init[|init| - 1] == msgs[|msgs| - 2];
      }
      assert (s.sent + init) + [last] == s.sent + msgs;
    }
  }

  lemma {:induction false} TickDelivers(s: State, t: TickStep, p: PartitionId)
    requires Delivered(s, t.after, p) && Genuine(t, s.lastOffset + 1, p)
    ensures Delivered(TickOf(s, t), t.after, p)
  {
    var at := s.lastOffset + 1;
    assert s.sent != [] ==> s.sent[|s.sent| - 1] in s.sent;
    var fetched := Fetch(BoundsOf(t.listed), BoundsOf(t.listed), t.polls, at, TICK_LIMIT);
    if fetched.Ok? && at < |t.listed.value.slots| {
      var start := Start(at, t.listed.value);
      var got := fetched.value;
      ForwardIsGapless(t.polls, t.logs, start, |t.listed.value.slots|, TICK_LIMIT, p, t.after);
      GaplessFromEarlier(got, at, start, t.after, p);
      PushInOrder(s, got);
      GaplessJoin(s.sent, got, 0, t.after, p);
    }
  }

  /**
   * Over every interleaving of ticks, failed or partial fetches, appends, retention and compaction: what was sent is in
   * strictly increasing offset order, genuine, and holds every record up to the last offset that the log still has.
   */
  lemma {:induction false} SentInOrderWithoutGaps(run: seq<TickStep>, p: PartitionId)
    requires run != [] && History(run, p)
    ensures Delivered(StateAfter(run), run[|run| - 1].after, p)
  {
    var init, last := run[..|run| - 1], run[|run| - 1];
    if init != [] {
      SentInOrderWithoutGaps(init, p);
      DeliveredLater(StateAfter(init), init[|init| - 1].after, last.after, p);
    }
    TickDelivers(StateAfter(init), last, p);
  }

  lemma {:induction false} DeliveredLater(s: State, l: Log, k: Log, p: PartitionId)
    requires Delivered(s, l, p) && LogEvolves(l, k)
    ensures Delivered(s, k, p)
  {
    GaplessLater(s.sent, 0, l, k, p);
  }

  /** What was sent is in strictly increasing offset order, and nothing of it is above the last offset. */
  ghost predicate InOrder(s: State) {
    Ascending(s.sent) && forall m | m in s.sent :: m.offset <= s.lastOffset
  }

  /** `t` sent, after what `s` had sent, only records of `msgs` above the last offset, and passed none of them by. */
  ghost predicate SendsNewer(s: State, t: State, msgs: seq<Record>) {
    && s.sent <= t.sent && s.lastOffset <= t.lastOffset
    && (forall m | m in t.sent[|s.sent|..] :: m in msgs && m.offset > s.lastOffset)
    && (forall m | m in msgs :: m.offset <= t.lastOffset)
  }

  lemma {:induction false} SendOneNewer(s: State, t: State, init: seq<Record>, last: Record)
    requires InOrder(t) && SendsNewer(s, t, init)
    ensures InOrder(Send(t, last)) && SendsNewer(s, Send(t, last), init + [last])
  {
    if last.offset > t.lastOffset {
      assert (t.sent + [last])[|s.sent|..] == t.sent[|s.sent|..] + [last];
    }
  }

  /** Messages in any order and with repeats: each is sent if it is above everything sent so far. */
  lemma {:induction false} PushSendsNewer(s: State, msgs: seq<Record>)
    requires InOrder(s)
    ensures InOrder(Push(s, msgs)) && SendsNewer(s, Push(s, msgs), msgs)
  {
    if msgs != [] {
      var init, last := msgs[..|msgs| - 1], msgs[|msgs| - 1];
      PushSendsNewer(s, init);
      SendOneNewer(s, Push(s, init), init, last);
      assert init + [last] == msgs;
    }
  }

  /** Whatever the broker answers, out of order or repeated, nothing is sent twice or out of order. */
  lemma {:induction false} AnyAnswersSentInOrder(run: seq<TickStep>)
    ensures InOrder(StateAfter(run))
  {
    if run != [] {
      var s, t := StateAfter(run[..|run| - 1]), run[|run| - 1];
      AnyAnswersSentInOrder(run[..|run| - 1]);
      var fetched := Fetch(BoundsOf(t.listed), BoundsOf(t.listed), t.polls, s.lastOffset + 1, TICK_LIMIT);
      if fetched.Ok? {
        PushSendsNewer(s, fetched.value);
      }
    }
  }

  /** The same for one offset: at or below the last offset sent, it was sent exactly once or is gone from the log. */
  lemma {:induction false} SentOnceOrGone(run: seq<TickStep>, p: PartitionId, o: nat)
    requires run != [] && History(run, p) && o <= StateAfter(run).lastOffset
    ensures var (l, sent) := (run[|run| - 1].after, StateAfter(run).sent);
      && (forall i, j | 0 <= i < j < |sent| :: sent[i].offset < sent[j].offset)
      && (HasRecord(l, o) && l.begin <= o ==> exists i | 0 <= i < |sent| :: sent[i] == RecordAt(l, p, o))
  {
    SentInOrderWithoutGaps(run, p);
    var l, sent := run[|run| - 1].after, StateAfter(run).sent;
    if HasRecord(l, o) && l.begin <= o {
      assert RecordAt(l, p, o) in sent;
    }
  }

  // ---------------------------------------------------------------- progress

  /** What the log holds beyond the last offset sent. */
  function Backlog(s: State, l: Log, p: PartitionId): seq<Record>
    requires s.lastOffset >= -1
  {
    DataIn(l, p, Start(s.lastOffset + 1, l), |l.slots|)
  }

  lemma {:induction false} RestOfRange(l: Log, p: PartitionId, lo: nat, hi: int, n: nat)
    requires 0 < n <= |DataIn(l, p, lo, hi)|
    ensures var s := DataIn(l, p, lo, hi); DataIn(l, p, s[n - 1].offset + 1, hi) == s[n..]
  {
    var s := DataIn(l, p, lo, hi);
    var mid := s[n - 1].offset + 1;
    DataInMembers(l, p, lo, hi);
    assert s[n - 1] in s;
    DataInSplit(l, p, lo, mid, hi);
    DataInMembers(l, p, lo, mid);
    DataInMembers(l, p, mid, hi);
    CutByOffset(DataIn(l, p, lo, mid), DataIn(l, p, mid, hi), n, mid);
  }

  lemma {:induction false} CutByOffset(a: seq<Record>, b: seq<Record>, n: nat, mid: int)
    requires Ascending(a + b) && 0 < n <= |a + b| && (a + b)[n - 1].offset + 1 == mid
    requires forall r | r in a :: r.offset < mid
    requires forall r | r in b :: r.offset >= mid
    ensures (a + b)[n..] == b
  {
    var s := a + b;
    assert forall i | 0 <= i < |a| :: s[i] in a;
    assert forall i | |a| <= i < |s| :: s[i] in b;
    assert s[n - 1].offset < mid && (n < |s| ==> s[n - 1].offset < s[n].offset);
    assert |a| == n;
  }

  /** A tick that reads undisturbed sends the next 20 records of the backlog, or all of it, and leaves the rest. */
  lemma {:induction false} FullTickSendsNext20(s: State, l: Log, p: PartitionId, polls: seq<Poll>)
    requires s.lastOffset >= -1 && Start(s.lastOffset + 1, l) < |l.slots|
    requires polls != [] && polls[0].Batch? && Delivers(polls, Backlog(s, l, p)) &&
      Exhausts(polls, Backlog(s, l, p), |l.slots|, 20)
    ensures var (t, backlog) := (Ticked(s, BoundsOf(Some(l)), BoundsOf(Some(l)), polls), Backlog(s, l, p));
      && t.sent == s.sent + Take(backlog, 20)
      && t.lastOffset >= s.lastOffset
      && Backlog(t, l, p) == if |backlog| <= 20 then [] else backlog[20..]
  {
    var at, backlog := Start(s.lastOffset + 1, l), Backlog(s, l, p);
    FetchReturnsPrefix(l, p, polls, at, |l.slots|, TICK_LIMIT);
    assert Fetch(BoundsOf(Some(l)), BoundsOf(Some(l)), polls, s.lastOffset + 1, TICK_LIMIT) ==
      Ok(Take(backlog, TICK_LIMIT));
    SendNext(s, l, p, TICK_LIMIT);
  }

  lemma {:induction false} RestOfBacklog(s: State, t: State, l: Log, p: PartitionId, n: nat)
    requires s.lastOffset >= -1 && 0 < n <= |Backlog(s, l, p)| && t.lastOffset == Backlog(s, l, p)[n - 1].offset
    ensures t.lastOffset > s.lastOffset && Backlog(t, l, p) == Backlog(s, l, p)[n..]
  {
    var at, last := Start(s.lastOffset + 1, l), Backlog(s, l, p)[n - 1];
    DataInMember(l, p, at, |l.slots|, last);
    assert last in Backlog(s, l, p);
    RestOfRange(l, p, at, |l.slots|, n);
  }

  lemma {:induction false} PushBacklog(s: State, l: Log, p: PartitionId, n: nat)
    requires s.lastOffset >= -1 && n <= |Backlog(s, l, p)|
    ensures var got := Backlog(s, l, p)[..n]; Push(s, got) == State(NextAt(got, s.lastOffset + 1) - 1, s.sent + got)
  {
    var at, backlog := Start(s.lastOffset + 1, l), Backlog(s, l, p);
    DataInAscending(l, p, at, |l.slots|);
    forall r | r in backlog[..n]
      ensures r.offset > s.lastOffset
    {
      assert r in backlog;
      DataInMember(l, p, at, |l.slots|, r);
    }
    PushInOrder(s, backlog[..n]);
  }

  lemma {:induction false} SendNext(s: State, l: Log, p: PartitionId, n: nat)
    requires s.lastOffset >= -1 && n > 0
    ensures var (t, backlog) := (Push(s, Take(Backlog(s, l, p), n)), Backlog(s, l, p));
      && t.sent == s.sent + Take(backlog, n)
      && t.lastOffset >= s.lastOffset
      && Backlog(t, l, p) == if |backlog| <= n then [] else backlog[n..]
  {
    var backlog := Backlog(s, l, p);
    var m := if n < |backlog| then n else |backlog|;
    var got := backlog[..m];
    assert got == Take(backlog, n);
    PushBacklog(s, l, p, m);
    if m > 0 {
      assert got[|got| - 1] == backlog[m - 1];
      RestOfBacklog(s, Push(s, got), l, p, m);
    }
  }

  // ---------------------------------------------------------------- on screen

  ghost function Shown(v: View, sent: seq<Record>): View {
    if sent == [] then v else Apply(Shown(v, sent[..|sent| - 1]), LiveArrived(sent[|sent| - 1]))
  }

  /** The browser's live list is the last hundred records sent. */
  lemma {:induction false} LiveListIsLatest(v: View, sent: seq<Record>)
    requires v.liveOn && v.live == [] && Ascending(sent)
    ensures Shown(v, sent) == v.(live := LastOf(sent, 100))
  {
    if sent != [] {
      var init, last := sent[..|sent| - 1], sent[|sent| - 1];
      LiveListIsLatest(v, init);
      var live := LastOf(init, LIVE_LIMIT);
      assert sent == init + [last];
      forall x | x in live
        ensures !SameSlot(x, last)
      {
        assert x in init;
      }
      MergeApart(live, [last]);
      assert LastOf(live + [last], LIVE_LIMIT) == LastOf(sent, LIVE_LIMIT);
    }
  }
}
