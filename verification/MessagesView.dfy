/** The messages page of the browser: the first page, the pages loaded under it, and the live list. */
module MessagesView {
  import opened Wrappers
  import opened Records
  import opened Runs
  import opened TailCursor
  import opened TailPage
  import opened TailChains
  import opened KafkaLog
  import opened TailEnds
  import opened TailSinglePartition

  // ---------------------------------------------------------------- merging

  /** `existing`, followed by the first occurrence of every record it lacks. */
  ghost function Merged(existing: seq<Record>, incoming: seq<Record>): seq<Record> {
    if incoming == [] then existing
    else
      var m := Merged(existing, incoming[..|incoming| - 1]);
      if Holds(m, incoming[|incoming| - 1]) then m else m + [incoming[|incoming| - 1]]
  }

  /** A set of keys stands for the records held. */
  ghost predicate KeysOf(seen: set<string>, held: seq<Record>) {
    forall k :: k in seen <==> exists r | r in held :: MessageKey(r) == k
  }

  method MergeMessages(existing: seq<Record>, incoming: seq<Record>) returns (next: seq<Record>)
    ensures next == Merged(existing, incoming)
  {
    var seen := set m | m in existing :: MessageKey(m);
    next := existing;
    for i := 0 to |incoming|
      invariant next == Merged(existing, incoming[..i])
      invariant KeysOf(seen, next)
    {
      var m := incoming[i];
      assert incoming[..i + 1][..i] == incoming[..i];
      SeenWhenHeld(seen, next, m);
      if MessageKey(m) !in seen {
        OneMoreKey(seen, next, m);
        seen := seen + {MessageKey(m)};
        next := next + [m];
      }
    }
    assert incoming[..|incoming|] == incoming;
  }

  lemma {:induction false} OneMoreKey(seen: set<string>, held: seq<Record>, m: Record)
    requires KeysOf(seen, held)
    ensures KeysOf(seen + {MessageKey(m)}, held + [m])
  {
    assert forall r :: r in held + [m] <==> r in held || r == m;
  }

  lemma {:induction false} SeenWhenHeld(seen: set<string>, held: seq<Record>, m: Record)
    requires KeysOf(seen, held)
    ensures MessageKey(m) in seen <==> Holds(held, m)
  {
    forall x | x in held
      ensures MessageKey(x) == MessageKey(m) <==> SameSlot(x, m)
    {
      MessageKeyInjective(x, m);
    }
  }

  /** What merging `incoming` into `existing` must come to. */
  ghost predicate IsMerge(existing: seq<Record>, incoming: seq<Record>, m: seq<Record>) {
    && existing <= m
    && (forall r | r in m[|existing|..] :: r in incoming && !Holds(existing, r))
    && (forall r | r in incoming :: Holds(m, r))
    && (Distinct(existing) ==> Distinct(m))
  }

  lemma {:induction false} MergeStep(existing: seq<Record>, init: seq<Record>, last: Record, m: seq<Record>)
    requires IsMerge(existing, init, m)
    ensures IsMerge(existing, init + [last], if Holds(m, last) then m else m + [last])
  {
    if !Holds(m, last) {
      var longer := m + [last];
      assert longer[|existing|..] == m[|existing|..] + [last];
      assert !Holds(existing, last) by {
        assert forall x | x in existing :: x in m;
      }
      forall r | r in init + [last]
        ensures Holds(longer, r)
      {
        HoldsMore(m, last, r);
      }
    } else {
      assert forall r | r in init + [last] :: r in init || r == last;
    }
  }

  /** Merging keeps what was there, in place, adds only incoming records, and ends up holding all of them. */
  lemma {:induction false} MergeAddsTheMissing(existing: seq<Record>, incoming: seq<Record>)
    ensures IsMerge(existing, incoming, Merged(existing, incoming))
  {
    if incoming != [] {
      var init, last := incoming[..|incoming| - 1], incoming[|incoming| - 1];
      MergeAddsTheMissing(existing, init);
      assert incoming == init + [last];
      MergeStep(existing, init, last, Merged(existing, init));
    }
  }

  lemma {:induction false} MergeApart(existing: seq<Record>, incoming: seq<Record>)
    requires Distinct(incoming) && forall x, y | x in existing && y in incoming :: !SameSlot(x, y)
    ensures Merged(existing, incoming) == existing + incoming
  {
    if incoming != [] {
      var init, last := incoming[..|incoming| - 1], incoming[|incoming| - 1];
      assert incoming == init + [last];
      MergeApart(existing, init);
      forall x | x in existing + init
        ensures !SameSlot(x, last)
      {
        assert x in existing || exists i | 0 <= i < |init| :: init[i] == x && incoming[i] == x;
      }
    }
  }

  lemma {:induction false} MergedFromNothing(incoming: seq<Record>)
    ensures Merged([], incoming) == Dedupe(incoming)
  {
    if incoming != [] {
      MergedFromNothing(incoming[..|incoming| - 1]);
    }
  }

  /** Merging into records without duplicates keeps the first occurrences of both lists laid end to end. */
  lemma {:induction false} MergeIsDedupe(existing: seq<Record>, incoming: seq<Record>)
    requires Distinct(existing)
    ensures Merged(existing, incoming) == Dedupe(existing + incoming)
  {
    if incoming == [] {
      DedupeDistinct(existing);
      assert existing + incoming == existing;
    } else {
      MergeIsDedupe(existing, incoming[..|incoming| - 1]);
      assert (existing + incoming)[..|existing + incoming| - 1] == existing + incoming[..|incoming| - 1];
    }
  }

  // ---------------------------------------------------------------- the page's state

  const LIVE_LIMIT: nat := 100

  /**
   * What the page keeps. It is in tail mode while neither partition nor offset is filled in; `cursor` is None for
   * null.
   */
  datatype View = View(tailMode: bool, first: seq<Record>, older: seq<Record>, cursor: Option<string>, hasMore: bool,
                       loading: bool, liveOn: bool, live: seq<Record>)

  const BLANK := View(true, [], [], None, false, false, false, [])

  datatype Event =
    | Switched(tailMode: bool)
    | FirstArrived(page: TailResult)
    | LookupArrived(items: seq<Record>)
    | Refreshed
    | Asked
    | OlderArrived(page: TailResult)
    | LoadFailed
    | LiveToggled
    | LiveArrived(record: Record)

  function CursorOf(page: TailResult): Option<string> {
    if page.token == "" then None else Some(page.token)
  }

  predicate CanAsk(v: View) {
    v.tailMode && v.cursor.Some? && v.hasMore && !v.loading
  }

  function LastOf(s: seq<Record>, n: nat): seq<Record> {
    if |s| > n then s[|s| - n..] else s
  }

  ghost function Apply(v: View, e: Event): View {
    match e
    case Switched(tailMode) =>
      v.(tailMode := tailMode, first := [], older := [], cursor := None, hasMore := false, live := [], liveOn := false)
    case FirstArrived(page) => v.(first := page.items, older := [], cursor := CursorOf(page), hasMore := page.hasMore)
    case LookupArrived(items) => v.(first := items)
    case Refreshed => v.(older := [], cursor := None, hasMore := false)
    case Asked => if CanAsk(v) then v.(loading := true) else v
    case OlderArrived(page) =>
      if v.loading then v.(older := Merged(v.older, page.items), cursor := CursorOf(page), hasMore := page.hasMore,
        loading := false)
      else v
    case LoadFailed => v.(loading := false)
    case LiveToggled => v.(liveOn := !v.liveOn)
    case LiveArrived(r) => if v.liveOn then v.(live := LastOf(Merged(v.live, [r]), LIVE_LIMIT)) else v
  }

  ghost function Displayed(v: View): seq<Record> {
    if v.liveOn && v.live != [] then v.live else if !v.tailMode then v.first else Merged(v.first, v.older)
  }

  class MessagesPage {
    var tailMode: bool
    var firstPage: seq<Record>
    var olderMessages: seq<Record>
    var tailCursor: Option<string>
    var hasMore: bool
    var loadingMore: bool
    var liveTail: bool
    var liveMessages: seq<Record>

    ghost function State(): View
      reads this
    {
      View(tailMode, firstPage, olderMessages, tailCursor, hasMore, loadingMore, liveTail, liveMessages)
    }

    constructor ()
      ensures State() == BLANK
    {
      tailMode, firstPage, olderMessages, tailCursor, hasMore := true, [], [], None, false;
      loadingMore, liveTail, liveMessages := false, false, [];
    }

    /** Another cluster, topic, partition or offset is chosen; a request in flight is not called off. */
    method Switch(tail: bool)
      modifies this
      ensures State() == Apply(old(State()), Switched(tail))
    {
      tailMode := tail;
      firstPage, olderMessages, tailCursor, hasMore, liveMessages, liveTail := [], [], None, false, [], false;
    }

    method FirstPageArrives(page: TailResult)
      modifies this
      ensures State() == Apply(old(State()), FirstArrived(page))
    {
      firstPage := page.items;
      tailCursor := CursorOf(page);
      hasMore := page.hasMore;
      olderMessages := [];
    }

    /** The records from an offset of one partition replace what was looked up before. */
    method LookupArrives(items: seq<Record>)
      modifies this
      ensures State() == Apply(old(State()), LookupArrived(items))
    {
      firstPage := items;
    }

    method Refresh()
      modifies this
      ensures State() == Apply(old(State()), Refreshed)
    {
      olderMessages, tailCursor, hasMore := [], None, false;
    }

    /** Up to the request: the cursor to send, if there is anything to ask for. */
    method LoadOlder() returns (request: Option<string>)
      modifies this
      ensures State() == Apply(old(State()), Asked)
      ensures request == if CanAsk(old(State())) then old(tailCursor) else None
    {
      if !tailMode || tailCursor.None? || !hasMore || loadingMore {
        return None;
      }
      loadingMore := true;
      return tailCursor;
    }

    /** The answer to the request, or None for a failed one. */
    method OlderPageArrives(answer: Option<TailResult>)
      requires loadingMore
      modifies this
      ensures State() == Apply(old(State()), if answer.Some? then OlderArrived(answer.value) else LoadFailed)
    {
      if answer.Some? {
        olderMessages := MergeMessages(olderMessages, answer.value.items);
        tailCursor := CursorOf(answer.value);
        hasMore := answer.value.hasMore;
      }
      loadingMore := false;
    }

    method ToggleLiveTail()
      modifies this
      ensures State() == Apply(old(State()), LiveToggled)
    {
      liveTail := !liveTail;
    }

    method LiveMessageArrives(r: Record)
      modifies this
      ensures State() == Apply(old(State()), LiveArrived(r))
    {
      if liveTail {
        var merged := MergeMessages(liveMessages, [r]);
        liveMessages := if |merged| > LIVE_LIMIT then merged[|merged| - LIVE_LIMIT..] else merged;
      }
    }

    method DisplayedMessages() returns (rows: seq<Record>)
      ensures rows == Displayed(State())
    {
      if liveTail && |liveMessages| > 0 {
        return liveMessages;
      }
      if !tailMode {
        return firstPage;
      }
      rows := MergeMessages(firstPage, olderMessages);
    }
  }

  // ---------------------------------------------------------------- any run of the page

  ghost function After(events: seq<Event>): View {
    Run(Apply, BLANK, events)
  }

  ghost predicate NoRepeats(v: View) {
    Distinct(v.first) && Distinct(v.older) && Distinct(v.live) && |v.live| <= 100
  }

  /** First pages and looked-up records have no duplicates of their own; later answers may hold anything. */
  ghost predicate DistinctAnswer(e: Event) {
    (e.FirstArrived? ==> Distinct(e.page.items)) && (e.LookupArrived? ==> Distinct(e.items))
  }

  lemma {:induction false} StepKeepsNoRepeats(v: View, e: Event)
    requires NoRepeats(v) && DistinctAnswer(e)
    ensures NoRepeats(Apply(v, e))
  {
    match e {
      case OlderArrived(page) => MergeAddsTheMissing(v.older, page.items);
      case LiveArrived(r) => MergeAddsTheMissing(v.live, [r]);
      case _ =>
    }
  }

  /**
   * Rows never share a key: over every order of user actions, refreshes, switches and late or repeated answers, as long
   * as first pages and looked-up records have no duplicates of their own.
   */
  lemma {:induction false} RowsAreDistinct(events: seq<Event>)
    requires forall e | e in events :: DistinctAnswer(e)
    ensures NoRepeats(After(events)) && Distinct(Displayed(After(events)))
  {
    if events != [] {
      var init := events[..|events| - 1];
      assert forall e | e in init :: e in events;
      RowsAreDistinct(init);
      StepKeepsNoRepeats(After(init), events[|events| - 1]);
    }
    var v := After(events);
    MergeAddsTheMissing(v.first, v.older);
  }

  // ---------------------------------------------------------------- one mode after another

  /** Neither anything to show nor anything to ask for. */
  predicate IsBare(v: View) {
    v.first == [] && v.older == [] && v.live == [] && v.cursor.None? && !v.hasMore
  }

  /** No answer and no live record comes in. */
  predicate BringsNothing(e: Event) {
    !e.FirstArrived? && !e.LookupArrived? && !e.OlderArrived? && !e.LiveArrived?
  }

  lemma {:induction false} StaysBare(v: View, events: seq<Event>)
    requires IsBare(v) && forall e | e in events :: BringsNothing(e)
    ensures IsBare(Run(Apply, v, events))
  {
    if events != [] {
      var init, last := events[..|events| - 1], events[|events| - 1];
      assert last in events && forall e | e in init :: e in events;
      StaysBare(v, init);
    }
  }

  /** After a switch, whatever was shown before, nothing is displayed or asked for until something new comes in. */
  lemma {:induction false} SwitchLeavesNothing(v: View, tailMode: bool, later: seq<Event>)
    requires forall e | e in later :: BringsNothing(e)
    ensures var w := Run(Apply, Apply(v, Switched(tailMode)), later);
      Displayed(w) == [] && !CanAsk(w)
  {
    StaysBare(Apply(v, Switched(tailMode)), later);
  }

  /**
   * But a request in flight is not called off: its answer, about what was shown before the switch, comes in afterwards,
   * is displayed, and its cursor is the next to be sent.
   */
  lemma {:induction false} LateAnswerIsShownExactlyWhenInFlight(v: View, page: TailResult)
    ensures var w := Apply(Apply(v, Switched(true)), OlderArrived(page));
      && Displayed(w) == (if v.loading then Dedupe(page.items) else [])
      && (CanAsk(w) <==> v.loading && page.hasMore && page.token != "")
  {
    MergedFromNothing(page.items);
    DedupeKeepsOneOfEach(page.items);
    DedupeDistinct(Dedupe(page.items));
    MergedFromNothing(Dedupe(page.items));
  }

  /** A refresh leaves the first page alone, and nothing to ask for until it has come in again. */
  lemma {:induction false} RefreshKeepsFirstPage(v: View)
    ensures var w := Apply(v, Refreshed);
      !CanAsk(w) && (v.tailMode && !v.liveOn ==> Displayed(w) == v.first)
  {
  }

  /** A first page is displayed as it is, and there is more to ask for exactly if it says so and brings a token. */
  lemma {:induction false} FirstPageIsDisplayed(v: View, page: TailResult)
    requires v.tailMode && !v.loading
    ensures var w := Apply(v, FirstArrived(page));
      && (!v.liveOn ==> Displayed(w) == page.items)
      && (CanAsk(w) <==> page.hasMore && page.token != "")
  {
  }

  /** One request at a time: none goes out while one is in flight, and a failed one can be sent again. */
  lemma {:induction false} OneRequestAtATime(v: View)
    ensures !CanAsk(Apply(v, Asked))
    ensures CanAsk(v) ==> Apply(Apply(v, Asked), LoadFailed) == v
  {
  }

  lemma {:induction false} MergedGrows(existing: seq<Record>, incoming: seq<Record>, more: seq<Record>)
    ensures Merged(existing, incoming) <= Merged(existing, incoming + more)
  {
    if more == [] {
      assert incoming + more == incoming;
    } else {
      MergedGrows(existing, incoming, more[..|more| - 1]);
      assert (incoming + more)[..|incoming + more| - 1] == incoming + more[..|more| - 1];
    }
  }

  lemma {:induction false} HoldsThrough(few: seq<Record>, many: seq<Record>, r: Record)
    requires Holds(few, r) && forall x | x in few :: Holds(many, x)
    ensures Holds(many, r)
  {
    var x :| x in few && SameSlot(x, r);
    var y :| y in many && SameSlot(y, x);
    assert SameSlot(y, r);
  }

  lemma {:induction false} MergedTwice(first: seq<Record>, older: seq<Record>, items: seq<Record>)
    ensures Merged(first, older) <= Merged(first, Merged(older, items))
    ensures forall r | r in items :: Holds(Merged(first, Merged(older, items)), r)
  {
    var m := Merged(older, items);
    MergeAddsTheMissing(older, items);
    MergedGrows(first, older, m[|older|..]);
    assert older + m[|older|..] == m;
    MergeAddsTheMissing(first, m);
    forall r | r in items
      ensures Holds(Merged(first, m), r)
    {
      HoldsThrough(m, Merged(first, m), r);
    }
  }

  /** An older page goes below the rows on display, which stay; all its records are then on display. */
  lemma {:induction false} OlderPageGoesBelow(v: View, page: TailResult)
    requires v.tailMode && v.loading && !v.liveOn
    ensures var w := Apply(v, OlderArrived(page));
      Displayed(v) <= Displayed(w) && forall r | r in page.items :: Holds(Displayed(w), r)
  {
    MergedTwice(v.first, v.older, page.items);
  }

  /** Turning the live tail off shows the pages again, and turning it on again the live rows there were. */
  lemma {:induction false} TogglingLosesNothing(v: View)
    ensures Displayed(Apply(v, LiveToggled)) == Displayed(v.(liveOn := !v.liveOn))
    ensures Apply(Apply(v, LiveToggled), LiveToggled) == v
    ensures v.liveOn ==> Displayed(Apply(v, LiveToggled)) == if v.tailMode then Merged(v.first, v.older) else v.first
  {
  }

  /** Looked-up records are displayed as they are, unless live rows are. */
  lemma {:induction false} LookupIsDisplayed(v: View, items: seq<Record>)
    requires !v.tailMode && (v.liveOn ==> v.live == [])
    ensures Displayed(Apply(v, LookupArrived(items))) == items && !CanAsk(Apply(v, LookupArrived(items)))
  {
  }

  /** With the live tail on, a live record is displayed after those before it: the last hundred, and nothing else. */
  lemma {:induction false} LiveRecordIsDisplayed(v: View, r: Record)
    ensures var w := Apply(v, LiveArrived(r));
      if !v.liveOn then w == v
      else
        Displayed(w) ==
          var all := if Holds(v.live, r) then v.live else v.live + [r];
          if |all| > 100 then all[|all| - 100..] else all
  {
    assert [r][..0] == [] && Merged(v.live, []) == v.live;
  }

  // ---------------------------------------------------------------- a user who keeps loading older pages

  ghost function Answer(call: Call): TailResult {
    TailResult(Items(call), HasMore(call), Token(Next(call)))
  }

  /** The first page, then one request and one answer for every further call. */
  ghost function Browsing(run: seq<Step>): seq<Event> {
    if run == [] then []
    else if |run| == 1 then [FirstArrived(Answer(run[0].call))]
    else Browsing(run[..|run| - 1]) + [Asked, OlderArrived(Answer(run[|run| - 1].call))]
  }

  /** More to read always comes with a cursor to read it by. */
  lemma {:induction false} MoreMeansAskable(call: Call)
    ensures HasMore(call) ==> CursorOf(Answer(call)) == Some(Token(Next(call)))
  {
    if HasMore(call) {
      var info :| info in call.parts && High(Next(call), info.partition) > info.begin;
      assert info.partition in Next(call);
      TokenReadsBack(Next(call));
    }
  }

  lemma {:induction false} Regroup(a: seq<Record>, b: seq<Record>, c: seq<Record>)
    ensures (a + b) + c == a + (b + c)
  {
  }

  lemma {:induction false} FlattenFromFront(pages: seq<seq<Record>>)
    requires pages != []
    ensures Flatten(pages) == pages[0] + Flatten(pages[1..])
  {
    var init, last := pages[..|pages| - 1], pages[|pages| - 1];
    if init == [] {
      assert pages[1..] == [] && Flatten(init) == [];
    } else {
      FlattenFromFront(init);
      assert pages[1..][..|pages| - 2] == init[1..];
      Regroup(init[0], Flatten(init[1..]), last);
    }
  }

  lemma {:induction false} OlderPage(v: View, page: TailResult)
    requires CanAsk(v)
    ensures var w := Apply(Apply(v, Asked), OlderArrived(page));
      w == v.(older := Merged(v.older, page.items), cursor := CursorOf(page), hasMore := page.hasMore)
  {
  }

  lemma {:induction false} ApartFromEarlier(pages: seq<seq<Record>>, n: nat)
    requires PagesApart(pages) && 0 < n < |pages|
    ensures Merged(Flatten(pages[1..n]), pages[n]) == Flatten(pages[1..n + 1])
  {
    var held := pages[1..n];
    forall x, y | x in Flatten(held) && y in pages[n]
      ensures !SameSlot(x, y)
    {
      FlattenMembers(held, x);
      var i :| 0 <= i < |held| && x in held[i];
      assert held[i] == pages[i + 1];
    }
    MergeApart(Flatten(held), pages[n]);
    assert pages[1..n + 1][..n - 1] == held;
  }

  /** What the view holds once `pages` have arrived, `last` being the latest answer. */
  ghost predicate ViewHolds(v: View, pages: seq<seq<Record>>, last: TailResult)
    requires pages != []
  {
    && v.first == pages[0] && v.older == Flatten(pages[1..])
    && v.cursor == CursorOf(last) && v.hasMore == last.hasMore
    && v.tailMode && !v.loading && !v.liveOn
  }

  lemma {:induction false} OneMorePage(v: View, pages: seq<seq<Record>>, before: TailResult, answer: TailResult)
    requires |pages| > 1 && PagesApart(pages) && ViewHolds(v, pages[..|pages| - 1], before) && CanAsk(v)
    requires answer.items == pages[|pages| - 1]
    ensures ViewHolds(Apply(Apply(v, Asked), OlderArrived(answer)), pages, answer)
  {
    var n := |pages| - 1;
    OlderPage(v, answer);
    ApartFromEarlier(pages, n);
    assert pages[..n][1..] == pages[1..n] && pages[1..n + 1] == pages[1..];
  }

  ghost predicate KeepsGoing(run: seq<Step>) {
    forall i | 0 <= i < |run| - 1 :: HasMore(run[i].call)
  }

  lemma {:induction false} InitialRun(run: seq<Step>)
    requires run != [] && Chained(run) && AllSound(run) && KeepsGoing(run)
    ensures var init := run[..|run| - 1];
      Chained(init) && AllSound(init) && KeepsGoing(init) && PagesOf(init) == PagesOf(run)[..|run| - 1]
  {
  }

  ghost predicate ViewAfter(v: View, run: seq<Step>)
    requires run != []
  {
    ViewHolds(v, PagesOf(run), Answer(run[|run| - 1].call))
  }

  lemma {:induction false} NextPageIsAskable(v: View, run: seq<Step>)
    requires |run| > 1 && Chained(run) && KeepsGoing(run) && ViewAfter(v, run[..|run| - 1])
    ensures CanAsk(v) && v.cursor == Some(Token(run[|run| - 1].call.cursor))
  {
    var n := |run| - 1;
    assert run[..n][n - 1] == run[n - 1] && run[n - 1 + 1].call.cursor == Next(run[n - 1].call);
    MoreMeansAskable(run[n - 1].call);
  }

  lemma {:induction false} BrowsingHolds(run: seq<Step>)
    requires run != [] && Chained(run) && AllSound(run) && KeepsGoing(run)
    ensures ViewAfter(After(Browsing(run)), run)
  {
    if |run| == 1 {
      RunOne(Apply, BLANK, FirstArrived(Answer(run[0].call)));
      assert PagesOf(run)[1..] == [];
    } else {
      var init, last := run[..|run| - 1], run[|run| - 1].call;
      InitialRun(run);
      BrowsingHolds(init);
      RunInTurn(Apply, BLANK, Browsing(init), [Asked, OlderArrived(Answer(last))]);
      RunTwo(Apply, After(Browsing(init)), Asked, OlderArrived(Answer(last)));
      var v := After(Browsing(init));
      NextPageIsAskable(v, run);
      PagesAreApart(run);
      OneMorePage(v, PagesOf(run), Answer(init[|init| - 1].call), Answer(last));
    }
  }

  /**
   * End to end, for any timestamps, appends and trims: loading older pages while there are more shows the pages laid
   * end to end, so no row is lost or merged away; each request carries the token of the next call's cursor.
   */
  lemma {:induction false} DisplayIsAllPages(run: seq<Step>)
    requires run != [] && Chained(run) && AllSound(run) && KeepsGoing(run)
    ensures Displayed(After(Browsing(run))) == Flatten(PagesOf(run))
    ensures After(Browsing(run)).hasMore <==> HasMore(run[|run| - 1].call)
    ensures |run| > 1 ==> After(Browsing(run[..|run| - 1])).cursor == Some(Token(run[|run| - 1].call.cursor))
  {
    var v, pages := After(Browsing(run)), PagesOf(run);
    BrowsingHolds(run);
    PagesAreApart(run);
    forall x, y | x in pages[0] && y in Flatten(pages[1..])
      ensures !SameSlot(x, y)
    {
      FlattenMembers(pages[1..], y);
      var i :| 0 <= i < |pages[1..]| && y in pages[1..][i];
      assert pages[1..][i] == pages[i + 1];
    }
    LaterPagesApart(pages);
    FlattenDistinct(pages[1..]);
    MergeApart(pages[0], Flatten(pages[1..]));
    FlattenFromFront(pages);
    if |run| > 1 {
      InitialRun(run);
      BrowsingHolds(run[..|run| - 1]);
      NextPageIsAskable(After(Browsing(run[..|run| - 1])), run);
    }
  }

  /** The rows add up: nothing on a page was already shown. */
  function Lengths(pages: seq<seq<Record>>): nat {
    if pages == [] then 0 else Lengths(pages[..|pages| - 1]) + |pages[|pages| - 1]|
  }

  lemma {:induction false} FlattenLength(pages: seq<seq<Record>>)
    ensures |Flatten(pages)| == Lengths(pages)
  {
    if pages != [] {
      FlattenLength(pages[..|pages| - 1]);
    }
  }

  lemma {:induction false} DisplayedLengthIsSum(run: seq<Step>)
    requires run != [] && Chained(run) && AllSound(run) && KeepsGoing(run)
    ensures |Displayed(After(Browsing(run)))| == Lengths(PagesOf(run))
  {
    DisplayIsAllPages(run);
    FlattenLength(PagesOf(run));
  }

  /**
   * For calls that read through any polls, complete or cut short: pages apart, all of them on display, and the rows
   * add up.
   */
  lemma {:induction false} AnyFetchesShowAllPages(run: seq<Step>)
    requires run != [] && Chained(run) && AllFetched(run) && KeepsGoing(run)
    ensures PagesApart(PagesOf(run)) && Displayed(After(Browsing(run))) == Flatten(PagesOf(run))
    ensures |Displayed(After(Browsing(run)))| == Lengths(PagesOf(run))
  {
    FetchedRunsAreSound(run);
    PagesAreApart(run);
    DisplayIsAllPages(run);
    DisplayedLengthIsSum(run);
  }

  /**
   * On a one-partition topic, once the button for more is gone, the whole log as first seen is on display, newest
   * first.
   */
  lemma {:induction false} OnePartitionShowsWholeLog(run: seq<Step>, p: PartitionId)
    requires OnePartitionRun(run, p) && KeepsGoing(run) && !After(Browsing(run)).hasMore
    ensures 0 <= High(Final(run), p) <= run[|run| - 1].topic[p].begin
    ensures Displayed(After(Browsing(run))) ==
      Reversed(DataIn(run[0].topic[p], p, High(Final(run), p), run[0].call.cursor[p]))
  {
    CompleteRunsAreSound(run);
    DisplayIsAllPages(run);
    PagesAreReversedLog(run, p);
    OnePartitionHasMore(run[|run| - 1].call, run[|run| - 1].topic, p);
  }

  lemma {:induction false} LaterPagesApart(pages: seq<seq<Record>>)
    requires PagesApart(pages) && pages != []
    ensures PagesApart(pages[1..])
  {
  }

  /**
   * Loading until the button disappears, on any number of partitions while nothing is trimmed: the display is the
   * newest-first sort of everything retained at the start exactly when no call found a partition outranked.
   */
  lemma {:induction false} DisplayIsWholeTopicExactlyWhenNeverOutranked(run: seq<Step>)
    requires Untrimmed(run) && WellRead(run) && KeepsGoing(run) && !After(Browsing(run)).hasMore
    ensures Distinct(AtStart(run))
    ensures Displayed(After(Browsing(run))) == Newest(AtStart(run)) <==> NeverOutranked(run)
  {
    CompleteRunsAreSound(run);
    DisplayIsAllPages(run);
    WholeTopicExactlyWhenNeverOutranked(run);
  }
}
