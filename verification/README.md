# Kafkaesque: a verified model

Kafkaesque is a web console for Kafka clusters. This project models the parts of it whose behaviour is hardest to see
from reading one function, and proves properties of them for every input, every run and every interleaving. To check it:
`dafny verify dfyconfig.toml`.

* **Tail browsing** (`KafkaLog`, `Records`, `ForwardFetch`, `Decimal`, `Base64Url`, `TailCursor`, `TailPage`,
  `TailPaging`, `TailFirstPage`, `TailChains`, `TailEnds`, `TailSinglePartition`, `TailWitnesses`, `MessagesView`). A
  stateless server and a token that holds one offset per partition. A call reads a bounded window below every offset,
  merges, sorts newest first, cuts to the page size, lowers the offsets and hands out a new token. The proofs say when a
  page is what sorting the whole topic would give, what becomes of every record over a chain of calls, and what the
  browser shows in the end. Producers append and retention trims between calls.
* **Live tail** (`LiveTail`). A polling loop with one offset, against a log that grows, is trimmed and is compacted
  between and during polls.
* **Alerts** (`ConsumerLag`, `AlertStore`, `Alerts`, `AlertEdges`, `AlertRaces`). Evaluation passes that look alerts up
  with SQL `LIKE` and insert or resolve them: sequentially, and with any number of passes interleaved between store calls.
* **Users, roles and sessions** (`Permissions`, `Iam`, `IamEffects`, `IamServer`, `IamRuns`). The handlers over their
  tables, and what holds over every run of requests, logins, provisioned logins and restarts.

Code that updates state step by step is modelled by methods and classes (`SortMessagesNewestFirst` works in place on an
array; `LiveTail`, `MessagesPage`, `AlertStore`, `Evaluator`, `Store` and `Server` are classes). Each method is tied to a
specification function, and the theorems are about those functions; what a caller relies on is also stated without them,
in the fields of records and rows and with the constants written out (`Records.InPageOrder`, `TailPage.AtEnds`,
`LiveTail.ReadFrom`, `Alerts.Treats`, `IamEffects.Fits` and `IamEffects.Effect`). Every lemma switches automatic
induction off, so what is in its body is its whole proof.

## Reading the tail results

A partition log has a begin offset and a sequence of slots; a slot without data (a compacted record, a transaction
marker) makes the offsets sparse. `TailPaging.Sound` is what every fetch guarantees, however it was cut short
(`FetchesAreSound` derives it from the polls); `Complete` adds that the listing is accurate and every window was read to
its end (`FullAnswersAreComplete` derives it from broker behaviour); `AllMonotone` says timestamps do not decrease with
the offset inside a partition; `Filled` says a window that stops above the begin offset holds a page of records, as it
always does with dense offsets (`DenseIsFilled`). `TailEnds.WellRead` and `Untrimmed` put these together for a chain
during which producers may append and nothing is trimmed.

Five claims one might make of the code fail, and the model follows the code:

* README.md:486 of the repository says that paging until the button disappears loads all available messages. A partition
  without a record on a page has its cursor lowered past everything fetched for it
  (backend/internal/kafkaclient/service.go:535-542). `TailWitnesses.OldRecordNeverShown` is, for every page size, a topic
  with one record that no page shows. The claim holds exactly when no call finds a partition whose newest unread record
  has a whole page of newer unread records ahead of it: `TailEnds.AllShownExactlyWhenNeverOutranked` for the records,
  `TailEnds.WholeTopicExactlyWhenNeverOutranked` for the pages laid end to end, and
  `MessagesView.DisplayIsWholeTopicExactlyWhenNeverOutranked` for what is on the screen.
* A window without records leaves the cursor where it was (service.go:508-510), so on sparse offsets paging can stop
  making progress: `TailWitnesses.PagingStalls` is, for every page size, a topic on which the first call repeats itself
  for ever. A cursor moves exactly when its window holds a record (`TailPaging.MovesExactlyWhenWindowHasRecords`), and on
  a topic at rest paging ends exactly when no cursor ever meets an empty window above its begin offset
  (`TailEnds.EndsExactlyWhenNeverStuck`).
* An alert search is a `LIKE` pattern made from the group ID, in which a backslash escapes what follows it. A group that
  misses its own alarms fires again with every pass. For an ID without wildcards, the search finds the group's own alarms
  exactly when all backslashes stand in one run at the very end and that run is even
  (`AlertRaces.FindsOwnExactlyWhenPaired`): one backslash at the end fails, two are fine, one in the middle fails. And
  among literal IDs, alerts follow the lag exactly when no ID is a prefix of another
  (`AlertEdges.EdgesExactlyWhenPrefixFree`).
* An underscore is a wildcard too: two groups whose IDs differ only where one has an underscore are not tracked
  correctly (`AlertEdges.UnderscoreConfusesGroups`).
* Choosing another topic clears the page, but a request for older messages in flight is not called off: its answer is
  shown under the new topic, exactly when one was in flight (`MessagesView.LateAnswerIsShownExactlyWhenInFlight`).

## Model

| member | source | states |
|---|---|---|
| `Decimal.ParseItoa` | backend/internal/kafkaclient/service.go:128-155 | A printed number parses back exactly at the widths that hold it, and is an error at any other. |
| `Decimal.PrintsPositionally` | backend/internal/kafkaclient/service.go:126-129 | Printing is decimal notation: last digit last, no digits before the first, a minus in front of a negative number. |
| `Decimal.ItoaInjective` | backend/internal/kafkaclient/service.go:126-129 | Two partitions never share a printed key, negative numbers included. |
| `Records.MessageKeyInjective` | backend/internal/kafkaclient/service.go:160-162 | Two records have the same key text exactly when partition and offset agree, although a dash is both separator and sign. |
| `Records.DedupeKeepsOneOfEach` | backend/internal/kafkaclient/service.go:164-176 | Deduplication leaves no (partition, offset) twice, invents nothing and loses none. |
| `Records.DedupeKeepsFirsts` | backend/internal/kafkaclient/service.go:164-176 | What is kept are exactly the records whose (partition, offset) no earlier record has, in their order. |
| `Records.DedupeMessages` | backend/internal/kafkaclient/service.go:164-176 | The loop over a set of key texts keeps the first record of each (partition, offset), in order. |
| `Records.NewerIsStrictTotalOrder` | backend/internal/kafkaclient/service.go:178-188 | The comparator is irreflexive, transitive, and total on records that differ in partition or offset. |
| `Records.NewestExactlyWhenInPageOrder` | backend/internal/kafkaclient/service.go:178-188 | In record fields: a list is the sort of another exactly when it rearranges it so that timestamps never rise, partition numbers never fall at one timestamp, and offsets strictly fall in one partition at one timestamp. |
| `Records.SortIsCanonical` | backend/internal/kafkaclient/service.go:178-188 | There is one newest-first arrangement only: neither input order nor sort instability can show. |
| `Records.SortMessagesNewestFirst` | backend/internal/kafkaclient/service.go:178-188 | The in-place sort rearranges the array so that timestamps never rise, partition numbers never fall at one timestamp, and offsets strictly fall in one partition at one timestamp. |
| `ForwardFetch.AppendEach` | backend/internal/kafkaclient/service.go:429-434 | One poll adds its records below the end offset, up to the limit. |
| `ForwardFetch.FetchPartitionForward` | backend/internal/kafkaclient/service.go:390-440 | The poll loop returns the first `limit` useful records up to a failure or an idle poll, and an error only if nothing was read. |
| `ForwardFetch.FetchReturnsPrefix` | backend/internal/kafkaclient/service.go:390-440 | For any batching and failure point: nothing for an empty range; otherwise an error exactly when the first poll fails, else a prefix of the log's records in the range, at most `limit`, complete exactly when non-empty polls go on to exhaustion. |
| `Base64Url.DecodeEncode` | backend/internal/kafkaclient/service.go:134-144 | Unpadded base64url (section 5 and section 3.2 of RFC 4648) decodes back to the same bytes. |
| `Base64Url.FollowsTable` | backend/internal/kafkaclient/service.go:134-144 | Letters are written and read by the table of section 5 of RFC 4648, and nothing outside it is read. |
| `Base64Url.SameNumber` | backend/internal/kafkaclient/service.go:134 | The sextets of one, two or three bytes are the same number in base 64, most significant first, filled up with zero bits. |
| `Base64Url.GroupByGroup` | backend/internal/kafkaclient/service.go:134 | Groups of three bytes are written one after the other. |
| `Base64Url.DecodableExactlyWhen` | backend/internal/kafkaclient/service.go:141-144 | Line breaks do not count; beyond them exactly the texts over the table that leave no lone letter can be read. |
| `Base64Url.TestVectors` | backend/internal/kafkaclient/service.go:134 | Three of the test vectors of section 10 of RFC 4648. |
| `TailCursor.MembersReadBack` | backend/internal/kafkaclient/service.go:126-148 | The members of the JSON object (sections 4 and 6 of RFC 8259), written in key order, read back to the same map. |
| `TailCursor.JsonListsKeysInOrder` | backend/internal/kafkaclient/service.go:126-130 | The JSON text is an object with every entry once, its keys strictly rising. |
| `TailCursor.LessAtFirstDifference` | backend/internal/kafkaclient/service.go:126-130 | Rising means: by the first character in which two keys differ, a proper prefix first. |
| `TailCursor.NumberGrammar` | backend/internal/kafkaclient/service.go:145-148 | An offset in a token is an optional minus and digits without a leading zero (section 6 of RFC 8259) within int64; anything else is an error. |
| `TailCursor.SpaceDoesNotMatter` | backend/internal/kafkaclient/service.go:145-148 | Space around the parts of a member is skipped. |
| `TailCursor.EncodeTailCursor` | backend/internal/kafkaclient/service.go:122-135 | In whatever order the map is walked, the token of the cursor comes out. |
| `TailCursor.DecodeTailCursor` | backend/internal/kafkaclient/service.go:137-158 | The result is a possible reading of the token; where two keys spell one partition, either may win. |
| `TailCursor.TokenRoundTrip` | backend/internal/kafkaclient/service.go:122-158 | A token decodes to the cursor it was made from and to nothing else; the empty cursor has the empty token, which decodes to no cursor. |
| `TailCursor.TokenInjective` | backend/internal/kafkaclient/service.go:122-135 | Different cursors have different tokens. |
| `TailPage.StartCursor` | backend/internal/kafkaclient/service.go:480-485 | Without a token the cursor holds exactly the listed partitions, each at its listed end offset. |
| `TailPage.LowestOffset` | backend/internal/kafkaclient/service.go:511-516 | The scan finds the smallest fetched offset. |
| `TailPage.FetchAll` | backend/internal/kafkaclient/service.go:492-519 | Every listed partition is read in its window; the call fails exactly when some fetch fails; otherwise pool and lowest offsets are those of the fetches. |
| `TailPage.LowestOnPage` | backend/internal/kafkaclient/service.go:528-533 | For exactly the partitions on the page, the lowest offset there. |
| `TailPage.LowerTo` | backend/internal/kafkaclient/service.go:535-547 | Entries only fall, to the given lows, outside the excepted partitions, in whatever order the map is walked. |
| `TailPage.AnyLeft` | backend/internal/kafkaclient/service.go:549-555 | `has_more` exactly when some listed partition's cursor is above its begin offset. |
| `TailPage.TailMessages` | backend/internal/kafkaclient/service.go:466-567 | The whole call: which error wins; otherwise page, `has_more` and token as functions of the cursor, the listing and the fetches; the page in the order of the sort and no longer than 1 to 500 as asked, else 50. |
| `TailPaging.DenseIsFilled` | backend/internal/kafkaclient/service.go:487-503 | With dense offsets a window cut short of the begin offset holds at least a page. |
| `TailPaging.WindowReach` | backend/internal/kafkaclient/service.go:487-503 | A window holds exactly the retained records at most 50 offsets, or twice the page size, below the cursor. |
| `TailPaging.ListingOrderIsIrrelevant` | backend/internal/kafkaclient/service.go:495-555 | Page, next cursor and `has_more` do not depend on the order in which partitions are listed. |
| `TailPaging.PageBeatsUnread` | backend/internal/kafkaclient/service.go:487-526 | No unread record of the topic, inside a window or not, is newer than a record on the page unless it is on the page too. |
| `TailPaging.PageIsTopOfUnread` | backend/internal/kafkaclient/service.go:487-526 | Reading windows only refines sorting everything: the page is the first `limit` records of the newest-first order of all retained records below the cursor. |
| `TailPaging.ShownLiesBetweenCursors` | backend/internal/kafkaclient/service.go:528-547 | Whatever was fetched, a page shows nothing at or above its cursor or below the next one. |
| `TailPaging.PartitionStep` | backend/internal/kafkaclient/service.go:521-547 | A partition on the page shows exactly its records from the next cursor up to the old one, without gap; a partition not on it is lowered below its whole window. |
| `TailPaging.MovesExactlyWhenWindowHasRecords` | backend/internal/kafkaclient/service.go:495-547 | A cursor moves exactly when its window holds a record, to an offset with a record in that window. |
| `TailPaging.DroppedExactlyWhenOutranked` | backend/internal/kafkaclient/service.go:528-547 | A call drops unread records of a partition exactly when at least a page of unread records is newer than its newest one. |
| `TailPaging.EmptyWindowsStall` | backend/internal/kafkaclient/service.go:508-510 | If no window holds a record, the page is empty and the cursor unchanged. |
| `TailPaging.FullAnswersAreComplete` | backend/internal/kafkaclient/service.go:495-519 | An accurate listing and polls that do not stop early give a complete call without errors. |
| `TailPaging.FetchesAreSound` | backend/internal/kafkaclient/service.go:390-440 | Whatever the polls of a call, complete, cut short or failing, what it fetched is in offset order, of its partition and below the cursor; no hypothesis on completeness. |
| `TailFirstPage.StartsAtTheEnds` | backend/internal/kafkaclient/service.go:480-485 | With an accurate listing and no token a call starts at exactly the topic's partitions, each at the end of its log, wherever retention has put the begin offset. |
| `TailFirstPage.ReadPage` | backend/internal/kafkaclient/service.go:466-567 | End to end for any token handed out: with full answers the page is the first 1 to 500 records asked for, else 50, of the sorted records retained below the cursor, none left out that would come before one of them. |
| `TailFirstPage.OpenTopic` | backend/internal/kafkaclient/service.go:480-526 | Opening a topic: the same, over every retained record of the topic. |
| `TailChains.CursorsFall` | backend/internal/kafkaclient/service.go:535-547 | Along a chain no cursor rises and no partition is lost from the token. |
| `TailChains.FetchedRunsAreSound` | backend/internal/kafkaclient/service.go:492-519 | The calls of any run are sound, whatever their polls. |
| `TailChains.NoRecordOnTwoPages` | backend/internal/kafkaclient/service.go:528-547 | For any timestamps, fetches, appends and trims, two pages of a chain share no (partition, offset); `FetchedRunsAreSound` supplies its hypothesis for every way the polls can go. |
| `TailChains.FlattenDistinct` | backend/internal/kafkaclient/service.go:528-547 | Pages that are apart, laid end to end, hold nothing twice. |
| `TailChains.PagesAreNewestFirst` | backend/internal/kafkaclient/service.go:521-547 | The pages of a chain, laid end to end, are strictly newest first across page boundaries, with appends and retention between calls. |
| `TailChains.OneCallSettles` | backend/internal/kafkaclient/service.go:521-547 | One call moves a record below its cursor to exactly one of shown, dropped, still below. |
| `TailChains.Ledger` | backend/internal/kafkaclient/service.go:495-547 | Conservation over any chain: shown on one page, dropped on one page that shows nothing of its partition, or still below its cursor, exactly one of them. |
| `TailChains.NothingLeftMeansShownOrDropped` | backend/internal/kafkaclient/service.go:549-555 | Once `has_more` is false, every retained record was shown exactly once unless some call dropped it. |
| `TailChains.DropsExactlyWhenOutranked` | backend/internal/kafkaclient/service.go:535-542 | A call drops no retained record exactly when no partition's newest unread record has a page of newer unread records ahead of it. |
| `TailChains.NothingLostExactlyWhenNoneOutranked` | backend/internal/kafkaclient/service.go:535-542 | Call by call over a run: no retained record is dropped exactly when no partition is outranked. |
| `TailChains.DenseWindowsHoldRecords` | backend/internal/kafkaclient/service.go:495-510 | With dense offsets, every window above a begin offset holds a record. |
| `TailChains.CursorBound` | backend/internal/kafkaclient/service.go:495-547 | While windows above the begin offsets hold records, after n calls each cursor is at its begin offset or at least n offsets lower. |
| `TailChains.PagingTerminates` | backend/internal/kafkaclient/service.go:549-555 | While windows above the begin offsets hold records, `has_more` is false after as many calls as the longest backlog has offsets. |
| `TailChains.TokenContinuesTheChain` | backend/internal/kafkaclient/service.go:476-485 | Sending a token back starts the next call at exactly the cursor the last call ended with, whatever is listed then. |
| `TailEnds.EndsExactlyWhenNeverStuck` | backend/internal/kafkaclient/service.go:508-555 | On a topic at rest `has_more` turns false exactly when no cursor ever meets an empty window above its begin offset, and then within as many calls as the longest backlog has offsets. |
| `TailEnds.AllShownExactlyWhenNeverOutranked` | README.md:486 | Once the button is gone, every record unread at the start has been shown exactly once, if and only if no call found a partition outranked. |
| `TailEnds.WholeTopicExactlyWhenNeverOutranked` | README.md:486 | On any number of partitions the pages of a finished chain, laid end to end, are the newest-first sort of everything unread at the start, exactly when no call found a partition outranked. |
| `TailWitnesses.OldRecordNeverShown` | README.md:486 | For every page size: a topic with a page of newer records in one partition and an older one in another, whose older record no page shows although nothing is left to load after the first call. |
| `TailWitnesses.PagingStalls` | backend/internal/kafkaclient/service.go:508-510 | For every page size: a topic on which the first call shows nothing, returns the cursor it was given and says there is more, with a record never reached. |
| `TailSinglePartition.PageIsReversedStretch` | backend/internal/kafkaclient/service.go:466-567 | On one partition a page is the stretch of the log between the two cursors, backwards. |
| `TailSinglePartition.PagesAreReversedLog` | backend/internal/kafkaclient/service.go:466-567 | The pages so far are the log from the first cursor backwards to the present one: no gap, no repeat, with appends and retention. |
| `TailSinglePartition.DensePageStep` | backend/internal/kafkaclient/service.go:487-547 | On dense offsets a call lowers the cursor by exactly a page, or to the begin offset. |
| `TailSinglePartition.ExhaustedAfterCeilCalls` | backend/internal/kafkaclient/service.go:549-555 | On a dense log at rest `has_more` turns false exactly with call number n / limit, rounded up. |
| `MessagesView.MergeMessages` | frontend/src/pages/MessagesPage.tsx:20-30 | The loop over key texts appends the first occurrence of every record not yet held. |
| `MessagesView.MergeAddsTheMissing` | frontend/src/pages/MessagesPage.tsx:20-30 | Merging keeps what was there in place, adds only incoming records that were not held, ends up holding all, and makes no duplicates. |
| `MessagesView.MergeIsDedupe` | frontend/src/pages/MessagesPage.tsx:20-30 | Merging into rows without duplicates keeps the first occurrences of both lists laid end to end. |
| `MessagesView.MessagesPage.constructor` | frontend/src/pages/MessagesPage.tsx:41-46 | The page starts blank. |
| `MessagesView.MessagesPage.Switch` | frontend/src/pages/MessagesPage.tsx:59-65 | Another topic, partition or offset clears everything but a load in flight, and settles whether the page is in tail mode. |
| `MessagesView.MessagesPage.FirstPageArrives` | frontend/src/pages/MessagesPage.tsx:94-100 | A first page replaces cursor and `has_more` and drops the older pages. |
| `MessagesView.MessagesPage.LookupArrives` | frontend/src/pages/MessagesPage.tsx:81-100 | Looked-up records replace the first page and touch neither cursor nor older pages. |
| `MessagesView.MessagesPage.Refresh` | frontend/src/pages/MessagesPage.tsx:126-131 | A refresh forgets older pages, cursor and `has_more` at once. |
| `MessagesView.MessagesPage.LoadOlder` | frontend/src/pages/MessagesPage.tsx:112-117 | A request goes out only in tail mode, with a cursor, with more to read and with none in flight, and carries that cursor. |
| `MessagesView.MessagesPage.OlderPageArrives` | frontend/src/pages/MessagesPage.tsx:118-124 | An answer is merged into the older pages; a failed one changes nothing but the flag. |
| `MessagesView.MessagesPage.ToggleLiveTail` | frontend/src/pages/MessagesPage.tsx:180-188 | Only the flag changes; live rows received stay. |
| `MessagesView.MessagesPage.LiveMessageArrives` | frontend/src/pages/MessagesPage.tsx:67-79 | A live message is merged in and the list kept to its last hundred. |
| `MessagesView.MessagesPage.DisplayedMessages` | frontend/src/pages/MessagesPage.tsx:102-110 | The live list while it has rows; else looked-up records as they are; else the first page merged with the older ones. |
| `MessagesView.RowsAreDistinct` | frontend/src/pages/MessagesPage.tsx:59-131 | Over every order of user actions, refreshes, switches and late answers, no two displayed rows share a key. |
| `MessagesView.SwitchLeavesNothing` | frontend/src/pages/MessagesPage.tsx:59-65 | After a switch nothing of what was shown before is displayed or asked for until something new comes in, whatever else is clicked meanwhile. |
| `MessagesView.LateAnswerIsShownExactlyWhenInFlight` | frontend/src/pages/MessagesPage.tsx:112-124 | The answer to a request sent before the switch is displayed after it, and its cursor used next, exactly when one was in flight. |
| `MessagesView.RefreshKeepsFirstPage` | frontend/src/pages/MessagesPage.tsx:126-131 | A refresh leaves the first page on display and nothing to ask for. |
| `MessagesView.FirstPageIsDisplayed` | frontend/src/pages/MessagesPage.tsx:94-110 | A first page is displayed as it is, and older rows can be asked for exactly if it says there are more and brings a token. |
| `MessagesView.OneRequestAtATime` | frontend/src/pages/MessagesPage.tsx:112-124 | No request goes out while one is in flight; after a failed one everything is as before it. |
| `MessagesView.OlderPageGoesBelow` | frontend/src/pages/MessagesPage.tsx:112-124 | An older page goes below the rows on display, which stay, and all its records are then on display. |
| `MessagesView.TogglingLosesNothing` | frontend/src/pages/MessagesPage.tsx:102-110 | Turning the live tail off shows the pages again; turning it on again shows the live rows there were. |
| `MessagesView.LookupIsDisplayed` | frontend/src/pages/MessagesPage.tsx:81-110 | Looked-up records are displayed as they are and there is nothing older to ask for. |
| `MessagesView.LiveRecordIsDisplayed` | frontend/src/pages/MessagesPage.tsx:67-110 | With the live tail on, what is displayed is the live rows with the new record at the end, the last hundred of them. |
| `MessagesView.MoreMeansAskable` | backend/internal/kafkaclient/service.go:549-560 | `has_more` never comes with an empty token. |
| `MessagesView.DisplayIsAllPages` | frontend/src/pages/MessagesPage.tsx:94-124 | End to end: loading older pages shows the chained pages laid end to end, nothing merged away, each request carrying the token of the next call. |
| `MessagesView.DisplayedLengthIsSum` | frontend/src/pages/MessagesPage.tsx:102-110 | The displayed length is the sum of the page lengths. |
| `MessagesView.AnyFetchesShowAllPages` | frontend/src/pages/MessagesPage.tsx:94-124 | The same three results for calls that read through any polls, complete or cut short: pages apart, all of them on display, lengths adding up. |
| `MessagesView.DisplayIsWholeTopicExactlyWhenNeverOutranked` | README.md:486 | When the button is gone, the display is the newest-first sort of everything unread at the start, exactly when no call found a partition outranked. |
| `MessagesView.OnePartitionShowsWholeLog` | README.md:486 | On one partition, once the button is gone, the display is the log backwards from the first cursor to the present begin offset or lower, without gap or repeat. |
| `LiveTail.FetchMessages` | backend/internal/kafkaclient/service.go:442-464 | Which listing error wins; and for bounds listed from a log, nothing at or past its end, else the oldest retained records from the offset on (from the begin offset for a negative or trimmed one), 1 to 500 as asked, else 100, all of those exactly when polls go on to exhaustion, and an error exactly when the first poll fails. |
| `LiveTail.LiveTail.Tick` | backend/internal/api/handlers_live.go:52-63 | One tick sends the fetched records above the last offset and remembers the last one; a failed fetch changes nothing. |
| `LiveTail.ForwardIsGapless` | backend/internal/kafkaclient/service.go:390-440 | However a fetch is cut short, and however the log moves between its polls, what it returns is in order, genuine, and lacks only what retention or compaction took. |
| `LiveTail.SentInOrderWithoutGaps` | backend/internal/api/handlers_live.go:43-65 | Over every interleaving of ticks, failures, appends, retention and compaction: sent records are genuine, strictly increasing, and hold every record up to the last offset that the log still has. |
| `LiveTail.SentOnceOrGone` | backend/internal/api/handlers_live.go:57-62 | An offset not above the last one sent was sent exactly once or is gone from the log. |
| `LiveTail.AnyAnswersSentInOrder` | backend/internal/api/handlers_live.go:57-62 | Whatever a broker answers, out of order or repeated, what is sent is in strictly increasing offset order. |
| `LiveTail.FullTickSendsNext20` | backend/internal/api/handlers_live.go:52-63 | An undisturbed tick sends the next 20 records of the backlog or all of it, and leaves exactly the rest. |
| `LiveTail.LiveListIsLatest` | frontend/src/pages/MessagesPage.tsx:67-79 | The browser's live list is the last hundred records sent. |
| `ConsumerLag.TotalFromAnyTopic` | backend/internal/kafkaclient/acl.go:346-365 | The total does not depend on the order in which topics are walked. |
| `ConsumerLag.TotalAddsEachLag` | backend/internal/kafkaclient/acl.go:346-365 | Each lag adds itself to the total, or nothing where it is negative; no topics and empty topics add nothing. |
| `ConsumerLag.Summarize` | backend/internal/kafkaclient/acl.go:346-365 | Sum of the non-negative lags and their maximum or zero, in whatever order topics are walked. |
| `ConsumerLag.DescribeGroup` | backend/internal/kafkaclient/acl.go:337-369 | State and members as described, else as listed; the group's own lag figures and topic count, else zeros. |
| `ConsumerLag.ListConsumerGroupsWithLag` | backend/internal/kafkaclient/acl.go:315-386 | One entry per listed group, in order, with state, members and its own figures; zeros where lag is unavailable, for one group or for all. |
| `ConsumerLag.ExceedsWhenSomePartitionDoes` | backend/internal/kafkaclient/acl.go:353-361 | For thresholds of zero and more, the maximum exceeds the threshold exactly when some partition's lag does. |
| `AlertStore.PrefixMatchesItself` | backend/internal/storage/store_alerts.go:93-102 | A text without backslashes matches its own prefix pattern, wildcards in it included. |
| `AlertStore.LiteralMeansPrefix` | backend/internal/storage/store_alerts.go:93-111 | For a literal prefix the pattern means: starts with. |
| `AlertStore.PatternMeaning` | backend/internal/storage/store_alerts.go:93-111 | What follows literal text in a pattern: an underscore is any one character, a percent sign any text, a backslash the character after it. |
| `AlertStore.AlertStore.InsertAlertEvent` | backend/internal/storage/store_alerts.go:72-85 | One row more, the others unchanged; nothing if the statement fails. |
| `AlertStore.AlertStore.HasActiveAlertEvent` | backend/internal/storage/store_alerts.go:93-102 | True exactly when an ACTIVE row of the rule matches the pattern; an error if the query fails. |
| `AlertStore.AlertStore.ResolveActiveAlertsByPrefix` | backend/internal/storage/store_alerts.go:104-111 | Exactly the ACTIVE rows of the rule that match become RESOLVED; none if the statement fails. |
| `AlertStore.AlertStore.ResolveAlertEvent` | backend/internal/storage/store_alerts.go:87-91 | Exactly the named row becomes RESOLVED; an unknown id changes none. |
| `Alerts.NamesOneGroup` | backend/internal/alerts/evaluator.go:110-120 | An alarm text names one group only, whatever characters group IDs hold. |
| `Alerts.RoundsToNearest` | backend/internal/alerts/evaluator.go:110-120 | Figures in alarms are rounded to the nearest whole number, halves to the even one. |
| `Alerts.WholeTextOfInt` | backend/internal/alerts/evaluator.go:110-120 | A lag is printed in full. |
| `Alerts.RulesAreIndependent` | backend/internal/alerts/evaluator.go:77-97 | A pass does to the events of each rule exactly what evaluating that rule alone does to them. |
| `Alerts.PassTreatsEveryRule` | backend/internal/alerts/evaluator.go:77-135 | For rules with distinct ids, in row terms: one CRITICAL event more for too many offline partitions whose insert succeeds; WARNING events for high lags and resolutions for low ones; nothing for a rule that is disabled, unknown or not loadable or whose request fails, nor for other rules. |
| `Alerts.Evaluator.EvalConsumerLag` | backend/internal/alerts/evaluator.go:99-123 | Group by group: resolve at or below the threshold; above it, fire unless the lookup succeeds and finds an active alert; failed resolves and inserts are ignored. |
| `Alerts.Evaluator.EvalOfflinePartitions` | backend/internal/alerts/evaluator.go:125-135 | Above the threshold it fires, without looking for an active alert, and it never resolves. |
| `Alerts.Evaluator.EvaluateCluster` | backend/internal/alerts/evaluator.go:48-64 | The enabled rules of one cluster, each treated as in `PassTreatsEveryRule`; nothing changes if the cluster cannot be loaded. |
| `Alerts.Evaluator.Evaluate` | backend/internal/alerts/evaluator.go:77-97 | All enabled rules, in order, skipping clusters that cannot be loaded; each rule's events end as `PassTreatsEveryRule` says. |
| `AlertEdges.PlainIdsSearchExactly` | backend/internal/storage/store_alerts.go:93-111 | Literal group IDs none of which is a prefix of another are told apart by the search. |
| `AlertEdges.ResolveCounts` | backend/internal/storage/store_alerts.go:104-111 | Resolving a group's alerts takes all of its own and none of another group's. |
| `AlertEdges.AlertsAreEdgeTriggered` | backend/internal/alerts/evaluator.go:99-123 | For one sequential evaluator: exactly one ACTIVE event while a group was last seen above the threshold, none otherwise, and as many events ever fired as rising edges seen. |
| `AlertEdges.EdgesExactlyWhenSearchIsExact` | backend/internal/storage/store_alerts.go:93-111 | Alerts follow the lag of every group over every run exactly when the search tells the groups' alarms apart. |
| `AlertEdges.EdgesExactlyWhenPrefixFree` | backend/internal/storage/store_alerts.go:93-111 | A condition on the IDs alone: literal group IDs are followed correctly over every run exactly when none is a prefix of another. |
| `AlertEdges.UnderscoreConfusesGroups` | backend/internal/storage/store_alerts.go:93-111 | Groups whose IDs differ only where one has an underscore are not followed correctly: the search for the one finds the alarms of the other. |
| `AlertEdges.FailedLookupFiresAgain` | backend/internal/alerts/evaluator.go:114-120 | A failed lookup opens one more event, whatever is active. |
| `AlertEdges.OneAlertWhileLagging` | backend/internal/alerts/evaluator.go:77-123 | After any pass over all rules, a listed group has exactly one ACTIVE event of a watching rule if some partition lags beyond the threshold, and none otherwise. |
| `AlertEdges.OfflineAlertsPileUp` | backend/internal/alerts/evaluator.go:125-146 | Offline alerts are not edge-triggered: each observation above the threshold adds an ACTIVE event and no observation resolves one. |
| `AlertEdges.OfflineRuleInPass` | backend/internal/alerts/evaluator.go:77-135 | In any pass an offline rule adds exactly one ACTIVE event if it is enabled, loadable and above its threshold and the insert succeeds, and otherwise changes none. |
| `AlertRaces.UninterruptedPass` | backend/internal/alerts/evaluator.go:106-120 | A pass that is not interrupted does what the sequential evaluator does. |
| `AlertRaces.UnescapedFindsOwn` | backend/internal/storage/store_alerts.go:93-102 | A group ID without backslashes finds its own alarms. |
| `AlertRaces.ActiveEventsBoundedByPasses` | backend/internal/alerts/evaluator.go:106-120 | With k passes interleaved between store calls, the ACTIVE events of a group plus the inserts under way never exceed k; resolves and inserts may fail, lookups must not. |
| `AlertRaces.BoundIsReached` | backend/internal/alerts/evaluator.go:106-120 | k passes that all look before the first insert open k ACTIVE events for one group. |
| `AlertRaces.BoundedExactlyWhenFound` | backend/internal/alerts/evaluator.go:106-120 | The bound holds over every run exactly when the group's search finds its own alarms. |
| `AlertRaces.FindsOwnExactlyWhenPaired` | backend/internal/storage/store_alerts.go:93-102 | A condition on the ID alone: without wildcards, a group ID finds its own alarms exactly when its backslashes are one even run at its very end. |
| `AlertRaces.BoundedExactlyWhenPaired` | backend/internal/alerts/evaluator.go:106-120 | So for an ID without wildcards, k passes bound its ACTIVE events over every run exactly under that condition. |
| `AlertRaces.TrailingBackslashIsMissed` | backend/internal/storage/store_alerts.go:93-102 | A literal group ID with a backslash at its end does not find its own alarms. |
| `Permissions.MatchPermission` | backend/internal/authorization/rbac.go:9-22 | True exactly when some entry equals the required permission or is a wildcard whose prefix it starts with. |
| `Permissions.AgreeExactlyWhenNamespaced` | frontend/src/auth/permissions.ts:105-109 | Over all granted lists whose entries have at most one dot, browser and server agree exactly on required permissions with a dot after a non-empty first segment, and on the bare wildcard. |
| `Permissions.NestedWildcardsDiffer` | frontend/src/auth/permissions.ts:105-109 | With two dots in an entry they differ. |
| `IamServer.Store.EnsureAdmin` | backend/internal/storage/store.go:77-96 | An administrator is added only to an empty users table. |
| `IamServer.Store.GetUserByEmailAny` | backend/internal/storage/store.go:105-110 | The holder of the email, active or not, or none. |
| `IamServer.Store.CountActiveAdmins` | backend/internal/storage/store.go:207-213 | The number of users that are both administrator and active. |
| `IamServer.Store.InsertUser` | backend/internal/storage/store.go:142-158 | A row under an id never used before. |
| `IamServer.Store.UpdateUser` | backend/internal/storage/store.go:160-167 | Four columns of one row, token version and hash staying; an unknown id changes no row. |
| `IamServer.Store.SetUserActive` | backend/internal/storage/store.go:169-175 | One column of one row, the token version staying; an unknown id changes no row. |
| `IamServer.Store.DeleteUser` | backend/internal/storage/store.go:177-180 | The row goes, unless audit rows refer to it, which the database does not allow. |
| `IamServer.Store.ResetPassword` | backend/internal/storage/store.go:182-189 | The new hash, and the token version one higher; an unknown id changes no row. |
| `IamServer.Store.RevokeUserSessions` | backend/internal/storage/store.go:191-197 | The token version one higher and nothing else; an unknown id changes no row. |
| `IamServer.Store.SetRolePermissionsTx` | backend/internal/storage/store_rbac.go:171-195 | The delete-then-insert loop succeeds exactly when every trimmed, non-empty requested ID is known, and then leaves the role exactly those. |
| `IamServer.Store.InsertRole` | backend/internal/storage/store_rbac.go:106-126 | A new, non-system role with those permissions; if the loop fails half-way, all roles as they were. |
| `IamServer.Store.UpdateRole` | backend/internal/storage/store_rbac.go:128-149 | New texts and permissions for one role; an error for an unknown role; if the loop fails half-way, all roles as they were. |
| `IamServer.Store.DeleteRole` | backend/internal/storage/store_rbac.go:151-169 | An unknown, a system or an assigned role is refused; any other is removed. |
| `IamServer.Server.HasPermission` | backend/internal/api/handlers.go:68-84 | The actor's role grants the permission, by an entry or a wildcard. |
| `IamServer.Server.GuardLastAdmin` | backend/internal/api/handlers_users.go:333-348 | Refused exactly when an administrator would stop being an active one with at most one active administrator counted. |
| `IamServer.Server.CreateUser` | backend/internal/api/handlers_users.go:62-112 | Which check refuses first, and the row that is added. |
| `IamServer.Server.UpdateUser` | backend/internal/api/handlers_users.go:125-188 | Which check refuses first, an unknown account included, and the row that results from the given fields. |
| `IamServer.Server.DeleteUser` | backend/internal/api/handlers_users.go:190-213 | Not an unknown account, not oneself, not the last administrator, not one that audit rows refer to; otherwise that row goes. |
| `IamServer.Server.SetUserActive` | backend/internal/api/handlers_users.go:223-253 | Which check refuses first; disabling also raises the token version, enabling does not. |
| `IamServer.Server.ResetUserPassword` | backend/internal/api/handlers_users.go:255-284 | Unknown accounts, short passwords and failed hashing are refused; otherwise hash and version change. |
| `IamServer.Server.RevokeUserSessions` | backend/internal/api/handlers_users.go:286-301 | An unknown account is refused; otherwise the version rises. |
| `IamServer.Server.ChangePassword` | backend/internal/api/handlers_users.go:18-48 | The same for oneself, after the old password was checked. |
| `IamServer.Server.CreateRole` | backend/internal/api/handlers_roles.go:62-108 | Identifier from the request or the name, in upper case; no second role under it. |
| `IamServer.Server.UpdateRole` | backend/internal/api/handlers_roles.go:110-140 | Unknown roles and blank names are refused. |
| `IamServer.Server.Authenticate` | backend/internal/auth/auth.go:117-141 | A token is accepted exactly when its account exists, is active and has the token's version. |
| `IamServer.Server.ServeRequest` | backend/internal/api/handlers.go:68-84 | Session first, then permission, then the handler; a request answered as done fitted the tables and left exactly its effect. |
| `IamServer.Server.Login` | backend/internal/auth/auth.go:42-65 | A token comes out exactly if the password is right and the token is for the active account that holds the trimmed, lower-case address, at its present version. |
| `IamServer.Server.Provision` | backend/internal/storage/store_alerts.go:152-175 | A token comes out exactly for the active account that holds the address, or for the account then added where nobody holds it and hashing succeeds. |
| `IamServer.Server.ServeAll` | backend/internal/api/handlers.go:68-84 | Over any sequence of events the server's tables go through the steps of the specification, every reply is the one it gives, and the tables stay sound. |
| `IamEffects.TrimCutsWhiteSpace` | backend/internal/storage/store.go:362-364 | Trimming cuts white space off both ends and leaves none there. |
| `IamEffects.CaseByCode` | backend/internal/storage/store.go:362-364 | Case is changed letter by letter, between codes 65 to 90 and 97 to 122, and nothing else is. |
| `IamEffects.TokenIssuedExactlyWhen` | backend/internal/auth/auth.go:42-65 | Which token an event issues, if any: by a login with the right password or a provisioned login for the active holder of the address, by the latter also for a new account, by nothing else. |
| `IamEffects.LoginSucceedsExactlyWhen` | backend/internal/auth/auth.go:42-65 | A login succeeds exactly when the password is right and some active account holds the address; every failure gives the same answer. |
| `IamEffects.PermissionsNeeded` | backend/internal/api/handlers_users.go:62-301 | Which permission each request needs, by name or by its group's wildcard; without it the request is refused and changes nothing. |
| `IamEffects.GuardRefusesExactlyTheLast` | backend/internal/api/handlers_users.go:333-348 | For an active administrator the guard refuses exactly the changes after which no active one is left. |
| `IamEffects.DoneExactlyWhenFit` | backend/internal/api/handlers_users.go:18-301 | A permitted request is carried out exactly when it fits the tables, and then changes exactly the rows it should, to exactly the values it should. |
| `IamEffects.RefusalsTellWhy` | backend/internal/api/handlers_users.go:18-301 | Every refusal by a handler names a condition that the request does fail. |
| `IamEffects.ProvisionAdds` | backend/internal/storage/store_alerts.go:152-175 | A provisioned login adds one active account for a free address, and changes nothing otherwise. |
| `IamEffects.RestartEffect` | backend/internal/storage/store.go:77-96 | A restart adds seeded permissions and roles, takes none away, and adds an administrator only where no account exists. |
| `IamRuns.GuardKeepsAdmin` | backend/internal/api/handlers_users.go:333-348 | Where the guard lets a change pass, somebody is left who is administrator and active. |
| `IamRuns.HandleKeepsSound` | backend/internal/api/handlers_users.go:62-301 | Every request keeps an active administrator, existing roles, unique emails, system roles and known permissions. |
| `IamRuns.EveryRunIsSound` | backend/internal/storage/store.go:77-96 | The same over every run from the first start, with requests, logins, provisioned logins and restarts. |
| `IamRuns.TwoChecksBeforeActing` | backend/internal/api/handlers_users.go:333-348 | Two requests that both pass the guard before either acts can disable both administrators. |
| `IamRuns.VersionsCountRevocations` | backend/internal/storage/store.go:182-197 | Over any run an account's version rises by the number of revocations, and an id once gone never returns. |
| `IamRuns.IssuedTokensAreCurrent` | backend/internal/auth/auth.go:83-97 | Every token issued is accepted at that moment. |
| `IamRuns.AcceptedExactlyWhenNeverRevoked` | backend/internal/auth/auth.go:117-141 | Whatever happens later, a token is accepted exactly when its account exists and is active and no reset, change, revocation or disabling hit it since issue. |
| `IamRuns.DeletedStaysOut` | backend/internal/auth/auth.go:129-137 | A deleted account's tokens stay dead, also when the email gets an account again. |
| `IamRuns.OnlyPermittedRequestsChange` | backend/internal/api/handlers.go:68-84 | A refused event changes no table; a request that changes one had a live session and the permission. |
| `IamRuns.RolePermissionsAreExact` | backend/internal/storage/store_rbac.go:106-195 | After creating or updating a role its permissions are exactly the trimmed non-empty requested ones and all else is untouched; or nothing changed at all. |

## Left out

- franz-go, kadm, pgx, bcrypt, JWT signing and AES-GCM: libraries. The broker is a log read in pieces, the database a set of tables with atomic statements, tokens are records nobody can forge, and hashing and password checks are parameters.
- Audit rows: which accounts they refer to is an input of a deletion (the foreign key in backend/internal/storage/migrations/001_init.sql refuses it then); nothing else depends on them.
- Token expiry, wall-clock columns and the poll deadline: a deadline is a poll that fails; expiry only makes fewer tokens acceptable.
- Accidental listing values: `ListPartitions` reports offsets 0 and 0 for a partition it cannot read (backend/internal/kafkaclient/service.go:341-344); the calls are modelled for any listing, the theorems about completeness assume an accurate one.
- Record keys, headers and topic names: carried along unchanged; a record is its partition, offset, timestamp and value.
- A cursor key with escapes other than those of digits and signs: such a key cannot be a partition number, so reading it as no key at all gives the same error.
- Integer overflow: lag totals, token versions and offsets near 2^63 are unbounded integers, except that cursor entries and partition numbers have their widths; Go's float64 lag comparison is exact arithmetic here, which it is below 2^53.
- JavaScript number precision: offsets above 2^53 lose digits in the browser; the model keeps them.
- Text beyond ASCII: email lower-casing and role upper-casing are those of ASCII letters, and password length counts characters of a byte string.
- `SlugifyRoleID`: its result is a parameter of role creation.
- `requirePerm` on reading endpoints, listing endpoints, request decoding, status codes and cookies: plumbing.
- Interleaved user handlers: the last-administrator invariant is stated for atomic requests, and `TwoChecksBeforeActing` shows why.
- An exact condition on group IDs with `%` or `_` that also hold backslashes: `AlertRaces.BoundedExactlyWhenFound` covers them by the search itself; without backslashes, `AlertRaces.UnescapedFindsOwn` covers all IDs.
- Alert rule deletion: it detaches events from the rule, which can only lower the counts that are bounded.
- The cache of the query library that delivers first pages and looked-up records: its answers are events of the page.
- Live tail of several topics, WebSocket upgrade and write errors: a record counts as sent when it is handed to the connection.
- Schema Registry, Kafka Connect, ACL translation, dashboards and dialogs: thin wrappers or display code.
