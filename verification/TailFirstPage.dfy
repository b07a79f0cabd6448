/** What the browser gets when it opens a topic, and when it sends a token: the whole call in the topic's terms. */
module TailFirstPage {
  import opened Wrappers
  import opened Records
  import opened KafkaLog
  import opened ForwardFetch
  import opened TailCursor
  import opened TailPage
  import opened TailPaging

  /** The offset after the last one of every partition. */
  function Ends(topic: Topic): Cursor {
    map p | p in topic :: |topic[p].slots|
  }

  /** A call without a token starts at exactly the topic's partitions, each at the end of its log. */
  lemma {:induction false} StartsAtTheEnds(parts: seq<PartitionInfo>, topic: Topic, c: Cursor)
    requires Lists(parts, topic) && AtEnds(parts, c)
    ensures c.Keys == topic.Keys && forall p | p in topic :: c[p] == |topic[p].slots|
    ensures c == Ends(topic)
  {
    forall p: PartitionId
      ensures p in c <==> p in topic
      ensures p in topic ==> c[p] == |topic[p].slots|
    {
      if p in topic {
        var info :| info in parts && info.partition == p;
      }
    }
  }

  predicate IsRetained(topic: Topic, r: Record) {
    r.partition in topic && topic[r.partition].begin <= r.offset && HasRecord(topic[r.partition], r.offset) &&
      r == RecordAt(topic[r.partition], r.partition, r.offset)
  }

  /** Where the call starts: at the cursor sent, or at the ends where none is. */
  function StartOf(c: Cursor, topic: Topic): Cursor {
    if c == map[] then Ends(topic) else c
  }

  function Size(limit: int): nat {
    if 1 <= limit <= 500 then limit else 50
  }

  /** `s` lists, without repeats, the topic's retained records below `c`. */
  ghost predicate ListsUnread(s: seq<Record>, c: Cursor, topic: Topic) {
    Distinct(s) && forall r :: r in s <==> IsRetained(topic, r) && r.partition in c && r.offset < c[r.partition]
  }

  lemma {:induction false} UnreadIsListed(parts: seq<PartitionInfo>, c: Cursor, topic: Topic)
    requires Lists(parts, topic)
    ensures ListsUnread(Unread(parts, c, topic), c, topic)
  {
    UnreadFacts(parts, c, topic);
  }

  /** The records that fill the page: none left out that would come before one of them. */
  ghost predicate IsFirstOf(page: seq<Record>, all: seq<Record>, n: nat) {
    && InPageOrder(page)
    && |page| == (if n < |all| then n else |all|)
    && (forall r | r in page :: r in all)
    && forall r, x | r in all && r !in page && x in page :: InPageOrder([x, r])
  }

  lemma {:induction false} PairInOrder(x: Record, r: Record)
    ensures InPageOrder([x, r]) <==> Newer(x, r)
  {
    PageOrderIsNewestFirst([x, r]);
    assert NewestFirst([x, r]) <==> Newer([x, r][0], [x, r][1]);
  }

  lemma {:induction false} TakeIsFirst(all: seq<Record>, n: nat)
    requires Distinct(all)
    ensures IsFirstOf(Take(Newest(all), n), all, n)
  {
    var page := Take(Newest(all), n);
    TakeKeepsOrder(Newest(all), n);
    PageOrderIsNewestFirst(page);
    forall r, x | r in all && r !in page && x in page
      ensures InPageOrder([x, r])
    {
      CutIsTop(all, n, x, r);
      PairInOrder(x, r);
    }
  }

  /** Every partition with something below the cursor is answered in full. */
  ghost predicate AllAnswered(c: Cursor, limit: nat, polls: map<PartitionId, seq<Poll>>, topic: Topic) {
    forall p | p in topic && High(c, p) > topic[p].begin ::
      p in polls && AnswersFully(polls[p], topic[p], p, Low(topic[p].begin, High(c, p), Window(limit)), High(c, p),
        Window(limit))
  }

  lemma {:induction false} PageOfUnread(call: Call, topic: Topic, all: seq<Record>)
    requires Complete(call, topic) && AllMonotone(topic) && Filled(call, topic)
    requires ListsUnread(all, call.cursor, topic)
    ensures IsFirstOf(Items(call), all, call.limit)
  {
    PageIsTopOfUnread(call, topic);
    UnreadIsListed(call.parts, call.cursor, topic);
    SameMembersSameOrder(Newest(all), Newest(Unread(call.parts, call.cursor, topic)));
    TakeIsFirst(all, call.limit);
  }

  lemma {:induction false} StartIsDecoded(parts: seq<PartitionInfo>, c: Cursor, topic: Topic, seen: Decoded)
    requires Lists(parts, topic) && DecodesTo(Token(c), seen)
    ensures !seen.Invalid? && CursorFor(parts, seen) == StartOf(c, topic)
  {
    TokenRoundTrip(c, seen);
    EndCursorIsAtEnds(parts);
    StartsAtTheEnds(parts, topic, EndCursor(parts));
  }

  /**
   * The browser asks with the token of `c`, or with none where `c` is empty. It gets the first page, of the size asked
   * for, of the page order of every retained record below where the call starts.
   */
  method ReadPage(limit: int, parts: seq<PartitionInfo>, token: string, polls: map<PartitionId, seq<Poll>>,
        ghost c: Cursor, ghost topic: Topic, ghost all: seq<Record>)
    returns (r: Result<TailResult, FetchError>)
    requires token == Token(c) && Lists(parts, topic) && AllMonotone(topic)
    requires Filled(Call(parts, StartOf(c, topic), Size(limit), map[]), topic)
    requires AllAnswered(StartOf(c, topic), Size(limit), polls, topic)
    requires forall p, poll, x | p in polls && poll in polls[p] && poll.Batch? && x in poll.records :: x.partition == p
    requires ListsUnread(all, StartOf(c, topic), topic)
    ensures r.Ok? && IsFirstOf(r.value.items, all, if 1 <= limit <= 500 then limit else 50)
  {
    ghost var seen;
    ghost var start, size := StartOf(c, topic), Size(limit);
    r, seen := TailMessages(limit, Ok(parts), token, polls);
    StartIsDecoded(parts, c, topic, seen);
    FullAnswersAreComplete(parts, start, size, polls, topic);
    PageOfUnread(Call(parts, start, size, Fetched(parts, start, Window(size), polls)), topic, all);
  }

  /**
   * Opening a topic, without a token: the first page of the page order of everything the topic retains, wherever
   * retention has put the begin offsets.
   */
  method OpenTopic(limit: int, parts: seq<PartitionInfo>, polls: map<PartitionId, seq<Poll>>, ghost topic: Topic,
        ghost all: seq<Record>)
    returns (r: Result<TailResult, FetchError>)
    requires Lists(parts, topic) && AllMonotone(topic)
    requires Filled(Call(parts, Ends(topic), Size(limit), map[]), topic)
    requires AllAnswered(Ends(topic), Size(limit), polls, topic)
    requires forall p, poll, x | p in polls && poll in polls[p] && poll.Batch? && x in poll.records :: x.partition == p
    requires Distinct(all) && forall x :: x in all <==> IsRetained(topic, x)
    ensures r.Ok? && IsFirstOf(r.value.items, all, if 1 <= limit <= 500 then limit else 50)
  {
    r := ReadPage(limit, parts, "", polls, map[], topic, all);
  }
}
