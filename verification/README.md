# Model of the sync stream, the adapter registry, the font builder and the voice bridge

Dafny models of six algorithmic cores of the repository, with proofs of what they are for.
`dafny verify dfyconfig.toml` checks the whole project.

| modules | what they model |
|---|---|
| `FontShards` | the greedy choice of font shards that covers the codepoints of the web interface |
| `SyncModel`, `SyncFold`, `SyncClient` | rows and events of the sync stream, the shaping of one page (expand, fold, emit), and the client-side view the backtest rebuilds |
| `FoldState`, `FoldChain`, `FoldCoverage`, `FoldAhead` | what shaping keeps: final client state, cursor coverage, and sessions before their unread states, with the backtest's count of those ahead |
| `SyncRebuild`, `RebuildState`, `SyncReplay` | regrouping stored classic rows into compound rows, the client state this keeps, and the paged replay of a whole user |
| `Versions`, `Specificity`, `AdapterRegistry`, `AdapterSelector` | version ranges, the specificity order, the registry and the selection of an adapter |
| `VoiceOrchestrator` | who speaks next in one voice call: race timer, awaited injections, mute, close |
| `ReplyQueue`, `InjectFilter` | the reply queue of a pipeline call and the stale filter in front of it |
| `OwnerAudio` | the hysteresis detector of the owner's speech and the transcript suppression window |
| `VolcFrames` | the big-endian binary frames: one writer, two readers |
| `Wrappers`, `TextOrder`, `GoText`, `PyText` | options and results, string order, and the few library functions the sources rely on |

Code that updates state is a class or a method with loops, proved equal to a function (`Value()` gives the abstract
state of an orchestrator, a registry, a detector, a bridge or a turn of the reply queue; a queue and the tables of
calls are stated on their fields); the theorems are about those functions, runs of them, or the methods' results.
The runs of the reply queue keep a history that no object holds; `ReplyQueue.StepIsMethod` ties each of their steps to
the method that makes it. Protocols with awaits and timers are transition systems whose events interleave freely: an
injection is two events, before and after its await; a turn of the reply queue is one event per completed or
timed-out get.

Where the code does less than its comments say, the model follows the code:

* *Narrower version windows win* (`registry.go:113-114`) is false for two-sided windows whose bounds have different
  numbers of segments: `>=1 <1.0.0.4` lies strictly inside `>=1.0.0.0 <1.0.0.5` and ranks below it
  (`Specificity.ShorterBoundsLose`). `Specificity.NarrowerWinsExactly` gives the exact condition,
  `Specificity.NarrowerWins` the cases in which the comment holds.
* A range whose maximum begins with `=` does not survive printing and parsing, since `<` followed by `=` parses as a
  bound without the `=` (`Versions.LeadingEqualsIsLost`). `Versions.RoundTripExact` gives the exact condition.
* The backtest's client reads a `session` or `unread` member that is present but `null` as an embedded event and
  fails on it, while the page shaper treats it as absent (`FoldState.NullMemberIsUnreadable`).
  `FoldState.ReadableIsExact` shows that exactly the message payloads that are null, or objects without such members,
  can be split; the stream theorems ask for nothing else of a payload.
* The backtest's count of unread events ahead of their session looks at one page only and identifies unread events by
  kind, session and version. So it can be positive although folding changed nothing
  (`SyncReplay.RepeatedUnreadIsCounted`), and it can be positive when a page begins inside a compound row whose
  session was delivered before (`SyncReplay.DeliveredSessionIsCounted`, from the backtest's own start cursor).
  `FoldAhead.ShapedPageAhead` gives the exact condition on the rows' events: some unread survives folding, the last one
  with its key finds its session on the unfolded page, and its own session is either not offered before it, or was
  delivered before and is not sent again. No unread loses its session for that:
  `FoldCoverage.FoldingKeepsUnreadCovered`, by position and counting delivered sessions, holds on every page.
* Regrouped rows expand to the stored rows exactly when the absorbed session and unread payloads carry their rows' own
  version (`SyncRebuild.ExpansionRestoresRows`): an absorbed row's version column is not written anywhere else.
  `SyncReplay.MismatchIsNotRestored` has two such rows. The final state survives regrouping exactly when the absorbed
  rows that are the last stored state of their entity do (`RebuildState.RegroupingKeepsState`).
* The stale filter compares only messages with a round: a message without one is always queued and also resets what
  the filter remembers (`InjectFilter.UnnumberedResetsFilter`). `InjectFilter.AcceptedExactly` says for every run
  which messages are queued.
* After a call is closed, an injection suspended at its await may still answer a round, even one the user has spoken
  over since (`VoiceOrchestrator.ClosedCallAnswersSpokenOver`), but at most once, and only if the round was open and
  unanswered and an injection was awaiting at the close (`VoiceOrchestrator.AnswersAfterCloseExactly`;
  `VoiceOrchestrator.RepliesAfterClose` says for every sequence of later events whether it happens).
* Injections that are stale because the user spoke on (`openai_orchestrator.py:11,51`) are not dropped once their await
  has begun: such an injection answers the later round (`VoiceOrchestrator.StaleInjectionAnswersNextTurn`).
  `VoiceOrchestrator.AnswersLaterRoundExactly` says exactly when.
* A client that declares no capabilities is told of no degraded ones, although all the adapter requires are missing
  (`AdapterSelector.AckPartitionsCapabilities` has the exact condition).
* The length field of a session id counts characters while the id is written in UTF-8, so the id is read back exactly
  when it is ASCII (`VolcFrames.FrameRoundTrip`; `VolcFrames.NonAsciiIdIsCut` is a one-letter id that is not).

## Model

| member | source | states |
|---|---|---|
| FontShards.SelectFontShards | frontend/scripts/build_web_ui_zh_subset_font.py:184-214 | The loop ends; its result is a sequence of shards each of which no input shard beats on what was still uncovered, leaving nothing uncovered, or exactly the required codepoints no shard holds; it succeeds if and only if the shards together hold every required codepoint |
| FontShards.BetterIsOrder | frontend/scripts/build_web_ui_zh_subset_font.py:217-227 | The three-level tie-break (gain, size, path) is negatively transitive, so a running best is best of all |
| FontShards.EveryPickIsBest | frontend/scripts/build_web_ui_zh_subset_font.py:192-227 | Every pick of a greedy run is an input shard that covers something still uncovered; no input shard covers more of it, none that covers as much has fewer bytes, and none with as many bytes as well has an earlier path |
| FontShards.SmallerFileIsSelected | frontend/scripts/build_web_ui_zh_subset_font.py:217-227 | Of two files that cover the one required codepoint the smaller is selected |
| FontShards.GainsInOrder | frontend/scripts/build_web_ui_zh_subset_font.py:189-213 | Any two picks of a greedy run newly cover non-empty, disjoint sets, the earlier at least as large as the later |
| FontShards.GainsSum | frontend/scripts/build_web_ui_zh_subset_font.py:189-213 | At every stage the newly covered sets and what is left make up the required set, and their sizes add up |
| FontShards.GainsPartition | frontend/scripts/build_web_ui_zh_subset_font.py:184-214 | A finished run's newly covered sets are non-empty, pairwise disjoint, never growing, and partition the required set |
| FontShards.TraceIsUnique | frontend/scripts/build_web_ui_zh_subset_font.py:192-213 | With distinct paths there is only one finished greedy run over a set of shards |
| FontShards.SelectionIgnoresInputOrder | frontend/scripts/build_web_ui_zh_subset_font.py:184-227 | With distinct paths, reordering (or repeating) the input shards changes neither the selected list nor the reported missing codepoints |
| FontShards.PotentialDrop | frontend/scripts/build_web_ui_zh_subset_font.py:195-202 | A pick at least as large as any cover member's remaining share lowers the cover's harmonic potential by the shares it takes, divided by its size |
| FontShards.GreedyPaysFromPotential | frontend/scripts/build_web_ui_zh_subset_font.py:184-214 | From any stage on, the number of further picks is at most the sum over any rival cover of the harmonic numbers of its members' remaining shares |
| FontShards.GreedyWithinHarmonic | frontend/scripts/build_web_ui_zh_subset_font.py:184-214 | The number of picks is at most H(d) times the size of any cover by input shards, d the largest number of required codepoints in one of its shards |
| FontShards.GreedyApproximation | frontend/scripts/build_web_ui_zh_subset_font.py:184-214 | The number of picks is at most H(number of required codepoints) times the size of any cover by input shards |
| TextOrder.TotalOrder | frontend/scripts/build_web_ui_zh_subset_font.py:225-227 | The string order used as last tie-break is total and strict |
| TextOrder.LessMeaning | frontend/scripts/build_web_ui_zh_subset_font.py:225-227 | The order is decided at the first differing character, or by prefix |
| SyncFold.Expand | backend/internal/syncstream/fold/fold.go:187-208 | The events are those of the undelivered parts of as many leading units as fit under the cap (always at least one), in order, each at its own cursor; rows and next cursor belong to the units taken |
| SyncFold.CapIsExact | backend/internal/syncstream/fold/fold.go:187-208 | The units taken fit under the cap unless there is one only, and the next unit, if any, would not have fitted |
| SyncFold.Fold | backend/internal/syncstream/fold/fold.go:220-265 | The reverse scan clears exactly the kept parts that have a later part of their class and no receipt of their own, whatever the page; the returned count is the number of receipts |
| FoldState.SurvivesExactly | backend/internal/syncstream/fold/fold.go:210-265 | On the fields of the parts: a kept part survives folding if and only if no later kept part may stand in for it (an upsert or revoke of its message for an upsert, a revoke for a revoke, a state of its kind, entity and id for a foldable one, nothing for the rest) or its command id is not empty and differs from that of the last such part |
| FoldState.ReceiptsExactly | backend/internal/syncstream/fold/fold.go:224-231 | The receipts counted are the kept parts with such a command id of their own |
| FoldState.EarlierUpsertIsFolded | backend/internal/syncstream/fold/fold.go:238-247 | Of two upserts of one message without command ids the first is folded away |
| SyncFold.NoteStep | backend/internal/syncstream/fold/fold.go:221-262 | One step of the reverse scan keeps the three tables equal to the command ids of the last parts seen of every class, and finds a survivor if and only if a later part of the class exists, with that last part's command id |
| SyncFold.FoldDecision | backend/internal/syncstream/fold/fold.go:225-231 | Clearing or keeping one part, and counting its receipt, is what the page-wide definition of superseded says |
| SyncFold.KeepSessionBeforeUnread | backend/internal/syncstream/fold/fold.go:276-308 | The pass over pointers into the units equals the scan over the flat list of parts, for the parts and the count |
| SyncFold.KeepOne | backend/internal/syncstream/fold/fold.go:283-306 | One step: the latest folded session.upsert is kept again exactly when an undelivered unread would overtake it |
| FoldCoverage.OnlyNeededKeptAgain | backend/internal/syncstream/fold/fold.go:267-308 | Keeping again changes only session.upserts that folding dropped; each is the last one before a surviving unread state whose session is known there neither from what folding left nor from earlier pages |
| FoldCoverage.PageCounts | backend/internal/syncstream/fold/fold.go:122-138 | A folded page reports the number of kept parts with a receipt of their own and the number of parts kept again; an unfolded one reports neither |
| SyncFold.ShapeCompound | backend/internal/syncstream/fold/fold.go:347-369 | The event of a compound row whose message survives: its cursor is that of the last surviving part, and its payload is rebuilt from the survivors exactly when some part was dropped |
| SyncFold.ShapeUnit | backend/internal/syncstream/fold/fold.go:323-370 | One event for a row whose message survives, else its surviving embedded parts as classic events |
| SyncFold.Emit | backend/internal/syncstream/fold/fold.go:313-372 | The units' events in order, each with first_cursor set exactly where the event covers more than its own cursor |
| SyncFold.FlatUpdate | backend/internal/syncstream/fold/fold.go:232-236 | Writing through a pointer to one part of one unit changes one position of the flat list of parts |
| SyncFold.TwoPasses | backend/internal/syncstream/fold/fold.go:128-131 | Folding in place and then keeping again in place gives the units the page is defined by, and the same count of kept-again parts |
| SyncFold.ShapePage | backend/internal/syncstream/fold/fold.go:112-138 | The whole page for a connection, expanded or compound, folded or not, or the error of the first bad row |
| SyncFold.ResolvedUnits | backend/internal/syncstream/fold/fold.go:113-120 | A page resolves row by row, every unit with at least one part |
| SyncFold.EmbeddedMeaning | backend/internal/syncstream/fold/compound.go:142-164 | A payload can be embedded if and only if it is an object with a session id that is not blank and a readable version, and these are what it is read to |
| SyncModel.VersionForms | backend/internal/syncstream/fold/compound.go:155-162 | A version is read alike from a number and from its decimal text, for every int64; anything else is an error |
| SyncClient.FinalState | backend/cmd/syncbacktest/main.go:294-322 | The entity and receipt tables after applying the parts of all events from the left, or the error of an unreadable event |
| SyncClient.SameFinalState | backend/cmd/syncbacktest/main.go:282-292 | True exactly when both lists can be read and leave the same entity states and receipts |
| SyncClient.UnreadAheadOfSession | backend/cmd/syncbacktest/main.go:328-370 | The number of unread events that find no session although the other list's last unread with the same key did |
| SyncClient.CoveredMeaning | backend/cmd/syncbacktest/main.go:338-357 | A session counts as known exactly when an upsert brought it that no later removal took away |
| SyncClient.CoveredBeforeMeaning | backend/cmd/syncbacktest/main.go:333-363 | A key of an unread counts as found exactly when the last unread with its kind, session and version followed its session |
| SyncClient.AheadIsSize | backend/cmd/syncbacktest/main.go:364-370 | The count is the number of unread states that come without their session although their key was found |
| SyncClient.EntityKeyMeaning | backend/cmd/syncbacktest/main.go:302-306 | With kinds and types free of the separator, and none of the kinds being "message", the client takes two events for one entity exactly when they are messages with one id, or agree in kind, type and id |
| SyncClient.PartsOfPrefix | backend/cmd/syncbacktest/main.go:297-302 | Splitting event by event splits the whole list, and the first event that cannot be split decides the error |
| SyncClient.StateOfConcatenation | backend/cmd/syncbacktest/main.go:294-322 | Pages compose: the state after two lists is the first state overwritten by the second, with the union of receipts |
| SyncClient.LastSelectedDecides | backend/cmd/syncbacktest/main.go:294-322 | After any selection of events, an entity is present exactly if an event with its key is selected, with the version, tombstone and payload of the last such one |
| SyncClient.ReceiptsSelected | backend/cmd/syncbacktest/main.go:311-317 | After any selection of events, the receipts are exactly the non-empty command ids selected |
| SyncClient.DroppingSupersededIsSafe | backend/cmd/syncbacktest/main.go:278-292 | Dropping events that have a later kept one of the same key, without losing a command id, gives the same final state |
| SyncClient.ContentDecidesState | backend/cmd/syncbacktest/main.go:294-322 | Cursors do not matter to the final state |
| SyncClient.VersionsDecideState | backend/cmd/syncbacktest/main.go:294-322 | Event lists that differ in versions only leave the same final state if and only if the latest event of every entity has the same version in both |
| FoldState.SurvivorStays | backend/internal/syncstream/fold/fold.go:210-219 | The part that replaces a superseded one lies later and is not superseded itself |
| FoldState.StateKeyDetermines | backend/internal/syncstream/fold/fold.go:255 | Equal NUL-separated state keys mean equal kind, entity and id |
| FoldState.ClassSharesKey | backend/internal/syncstream/fold/fold.go:238-261 | Parts that may replace each other are states of one entity |
| FoldState.FinalPartsDropSuperseded | backend/internal/syncstream/fold/fold.go:128-131 | Folding and keeping again change kept flags only, drop only parts with a later kept part of the same entity, and lose no command id |
| FoldState.FoldingKeepsStateOfParts | backend/internal/syncstream/fold/fold.go:210-275 | The parts left after folding bring a client to the same final state as all of them |
| FoldState.JoinedSplitsBack | backend/internal/syncstream/fold/compound.go:110-122 | Round trip: the client splits what joinCompound joined into the message and the two embedded events |
| FoldState.CompoundSplitsBack | backend/internal/syncstream/fold/fold.go:330-369 | However many embedded parts were dropped, the client splits the compound event into exactly the surviving parts |
| FoldState.UnitSplitsBack | backend/internal/syncstream/fold/fold.go:323-370 | The same for every unit, compound or not, its message surviving or not |
| FoldState.ChainingKeepsParts | backend/internal/syncstream/fold/fold.go:316-322 | Adding first_cursor does not change what a client makes of the events |
| FoldState.CompoundPageSplits | backend/internal/syncstream/fold/fold.go:112-138 | A client can split every event of a compound page, folded or not, and gets the contents of the surviving parts in order |
| FoldState.ShapedPageSameState | backend/internal/syncstream/fold/fold.go:112-138 | Every page for a compound connection, folded or not, leaves a client in the same final state as the classic expansion of its rows, and consumes the same rows up to the same cursor |
| FoldState.ReadableIsExact | backend/cmd/syncbacktest/main.go:374-419 | The client can split a row sent whole if and only if its payload is readable (an object without null embedded members, or null) |
| FoldState.NullMemberIsUnreadable | backend/cmd/syncbacktest/main.go:374-419 | A message row with a null session member is shaped into a compound page the client fails on |
| FoldChain.NoBreaksMeansTiles | backend/cmd/syncbacktest/main.go:222-241 | The chain checker counts nothing and ends at a cursor if and only if the events' intervals tile up to that cursor |
| FoldChain.BreaksAreGaps | backend/cmd/syncbacktest/main.go:222-239 | The count is the number of events that do not start right behind the event before them, or end before they start |
| FoldChain.TilesIsPartition | backend/cmd/syncbacktest/main.go:222-241 | Tiling means: each cursor after the start up to the end lies in exactly one event's interval, every other cursor in none |
| FoldChain.TilesJoin | backend/cmd/syncbacktest/main.go:216-267 | Tilings of consecutive pages join to one, and a joined tiling splits |
| FoldChain.BreaksJoin | backend/cmd/syncbacktest/main.go:222-241 | The breaks of two event lists add up when the second is checked from the end of the first |
| FoldChain.PageEndsAtNextCursor | backend/cmd/syncbacktest/main.go:236-241 | For rows in ascending cursor order, every page of every kind makes progress, ends at its next cursor, which is that of the last row it consumed, and so counts exactly the breaks between its events |
| FoldChain.ChainedTiles | backend/internal/syncstream/fold/fold.go:310-322 | Chaining by first_cursor turns any events with increasing cursors into a tiling |
| FoldChain.ShapedPageTiles | backend/internal/syncstream/fold/fold.go:112-138 | Every compound page, folded or not, of rows whose reserved cursors do not overlap, the first of them possibly delivered in part, covers exactly the cursors from its start to its next cursor, which is its last row's, and consumes all rows |
| FoldChain.ClassicPageTiles | backend/internal/syncstream/fold/fold.go:187-208 | A classic page of such rows, capped or not, makes progress, ends at its last consumed row's cursor, and breaks the chain if and only if the consumed rows leave a cursor out |
| FoldCoverage.KeepScanCovers | backend/internal/syncstream/fold/fold.go:267-308 | On any page, after every prefix of the pass, what it knows about each session is true of the parts sent and those delivered before, and every kept unread seen so far finds its session if and only if an upsert of it, kept or folded, came before with no kept removal after |
| FoldCoverage.FoldingKeepsUnreadCovered | backend/internal/syncstream/fold/fold.go:267-275 | On any page, position by position: an unread state that survives folding finds its session, sent or delivered before, whenever it did in the unfolded page |
| FoldCoverage.FoldedUnreadFindsSession | backend/internal/syncstream/fold/fold.go:267-308 | On any page, only session.upserts were kept again, and a surviving unread finds its session, sent or delivered before, if and only if it was offered before, even by a folded upsert, with no surviving removal in between |
| FoldCoverage.SentExactly | backend/internal/syncstream/fold/fold.go:283-306 | When only a page's first parts were delivered before, the page itself sends the session before a surviving unread if and only if it was offered and, when delivered before and not removed since, an upsert of it survives folding on its own |
| FoldAhead.KeptMeansOutlives | backend/internal/syncstream/fold/fold.go:210-219 | A session or member part survives folding if and only if its event is a tombstone, the last of its states, or carries a command id that the last one does not |
| FoldAhead.FoldedOfRest | backend/internal/syncstream/fold/fold.go:234-237 | Parts delivered before take no part in folding: the others fold as if alone |
| FoldAhead.Standing | backend/internal/syncstream/fold/fold.go:232-308 | What a folded page has offered and sent, and what was delivered, before each new part is read off the unfolded events and the sessions delivered before |
| FoldAhead.TombstonesOutlive | backend/internal/syncstream/fold/fold.go:216-219 | When removals are tombstones and nothing was delivered before, the sessions offered before an event are those the unfolded page has shown |
| FoldAhead.AheadExactly | backend/cmd/syncbacktest/main.go:328-370 | One new event of a folded page is counted as unread ahead if and only if it survives folding, lacks its session (not offered before it, or delivered before and not sent again), and the last unread with its kind, session and version finds it on the unfolded page |
| FoldAhead.AheadIsRepeated | backend/cmd/syncbacktest/main.go:328-370 | When no session was delivered before, such an unread is always an earlier one than the last with its key |
| FoldAhead.ShapedPageAhead | backend/cmd/syncbacktest/main.go:324-370 | The count on a folded page of readable rows, of which only the first may have been delivered in part, is zero if and only if the rows' events and the sessions delivered before have no such unread |
| SyncRebuild.RebuildCompoundRows | backend/cmd/syncbacktest/main.go:439-482 | One pass with a pending record builds one row for each group of the input, or fails with the first group's error |
| SyncRebuild.GroupsTile | backend/cmd/syncbacktest/main.go:439-499 | The groups flatten to the input in order, each is a message with its optional session and unread rows in that order, and no group could have taken the row after it |
| SyncRebuild.GroupsExactly | backend/cmd/syncbacktest/main.go:439-499 | On the fields of the rows: each group is the first row behind the earlier groups and, if that is a stored message, the session row and then the unread row that follow it at the next cursors, each if it has the message's creation time and session id, no command id and no tombstone |
| SyncRebuild.MessageStartsGroup | backend/cmd/syncbacktest/main.go:473-476 | A stored message starts a group wherever it stands, so regrouping splits there |
| SyncRebuild.WriteIsOneGroup | backend/cmd/syncbacktest/main.go:484-499 | The rows of one write are one group, whatever is stored before and after them |
| SyncRebuild.PairIsOneGroup | backend/cmd/syncbacktest/main.go:484-499 | Two rows become one if and only if the first is a message and the second a session or unread row of its write; a row with another creation time stays apart |
| SyncRebuild.AbsorbedRows | backend/cmd/syncbacktest/main.go:484-499 | Only messages take rows in, and every absorbed row has its head's creation time and session id, the next cursor, no command id and no tombstone |
| SyncRebuild.BuiltSplit | backend/internal/syncstream/fold/compound.go:30-50 | Splitting a built compound row gives the message payload and the absorbed payloads back, all of them acceptable to the writer's checks; nothing else of the row changes but its cursor |
| SyncRebuild.BuiltSpan | backend/cmd/syncbacktest/main.go:442-456 | A built row covers exactly the cursors of its group |
| SyncRebuild.RebuildKeepsOrder | backend/cmd/syncbacktest/main.go:439-482 | The built rows are in order, or contiguous without gap or overlap, if and only if the stored rows are |
| SyncRebuild.GroupRestores | backend/cmd/syncbacktest/main.go:487-499 | Expanding one built row gives the same delivered flags as its group's rows, and the same events if and only if the absorbed payloads carry their rows' versions |
| SyncRebuild.ExpansionRestoresRows | backend/cmd/syncbacktest/main.go:439-535 | For every row list, the built rows expand if and only if the stored ones do, into as many parts with the same delivered flags and the same events but for versions, and into exactly the same events if and only if every absorbed payload carries its row's version |
| RebuildState.BuiltReadable | backend/cmd/syncbacktest/main.go:439-482 | A built row is readable to a client if its message row is |
| RebuildState.RegroupedContents | backend/cmd/syncbacktest/main.go:372-482 | For every row list, with no condition on cursors or payloads: a client can read the built rows if and only if it can read the stored ones, and gets the same contents but for versions, the very same if and only if every absorbed payload carries its row's version |
| RebuildState.LatestVersionsFit | backend/cmd/syncbacktest/main.go:294-499 | The latest states of stored and built rows agree in version if and only if, group by group, every absorbed row whose entity no later stored row carries has its own version in its payload |
| RebuildState.RowsSplitIntoStream | backend/cmd/syncbacktest/main.go:374-419 | The client splits readable rows into the contents of the events the page shaper makes of them |
| RebuildState.RegroupingKeepsState | backend/cmd/syncbacktest/main.go:294-499 | For every row list that can be regrouped, stored and built rows leave a client in the same final state with the same receipts if and only if every absorbed row that no later stored row of its entity replaces carries its own version |
| SyncReplay.CountBreaks | backend/cmd/syncbacktest/main.go:222-241 | The loop counts the events that do not follow the cursor before them, for either kind of client |
| SyncReplay.ComparePage | backend/cmd/syncbacktest/main.go:222-265 | The counts of one page: its events, receipts and breaks, and, when folded, whether its final state differs from that of the same rows unfolded and how many unread states come ahead |
| SyncReplay.Replay | backend/cmd/syncbacktest/main.go:210-269 | The loop ends, consumes every row exactly once in batches, and returns the concatenated events and summed counts |
| FoldState.StreamAnywhere | backend/internal/syncstream/fold/fold.go:140-183 | Where a page starts does not change which events a row stands for |
| SyncReplay.ReplayChain | backend/cmd/syncbacktest/main.go:210-269 | The chain check is exact over whole replays, for all options and any rows with ascending cursors: the breaks counted over all pages are those of the concatenated events, which end at the last row's cursor, and none is counted if and only if the events' intervals tile the cursors from the start to the last row, across page boundaries |
| SyncReplay.ClassicReplay | backend/cmd/syncbacktest/main.go:210-269 | A classic replay under any cap succeeds for any rows with ascending cursors and counts no break if and only if its events tile; if reserved cursors do not overlap, but for a first row delivered in part, it delivers every part after the start once and in order, and counts no break if and only if the rows leave no cursor out |
| SyncReplay.ShapedPage | backend/cmd/syncbacktest/main.go:213-266 | One page for a compound client is readable and in the state of its rows' events after the start; if only the first row may have been delivered in part, an unread is counted ahead exactly under the condition of FoldAhead.ShapedPageAhead, and the events tile the cursors |
| SyncReplay.ShapedReplay | backend/cmd/syncbacktest/main.go:210-269 | The same across all pages, for any rows with ascending cursors: no page differs from its unfolded form, the final state is that of the unfolded pages one after the other, and no break is counted if and only if the events tile; if reserved cursors do not overlap, but for a first row delivered in part, no break, and an unread counted ahead if and only if a batch has one |
| SyncReplay.UnfoldedIsStream | backend/cmd/syncbacktest/main.go:210-269 | The unfolded pages of such rows, one after the other, are the rows' events after the start |
| SyncReplay.RebuildResumes | backend/cmd/syncbacktest/main.go:145-206 | Regrouping keeps which rows may have been delivered in part and whether the rows leave a cursor out; a first row delivered in part is left alone |
| SyncReplay.RepeatedUnreadIsCounted | backend/cmd/syncbacktest/main.go:328-370 | Three stored rows whose folded page is the unfolded one, event for event, and on which an unread is counted ahead |
| SyncReplay.DeliveredSessionIsCounted | backend/cmd/syncbacktest/main.go:177 | Four stored rows, the first of them compound, replayed from the cursor before its own, on which an unread that is not repeated is counted ahead |
| SyncReplay.MismatchIsNotRestored | backend/cmd/syncbacktest/main.go:439-499 | Two stored rows of one write that are regrouped and then expand to a session event with the payload's version instead of the row's |
| SyncReplay.BacktestOfOneUser | backend/cmd/syncbacktest/main.go:145-206 | For any readable row list that can be regrouped, without overlapping reserved cursors, from any cursor before the first row's (as the backtest does), all four replays (stored and regrouped, classic and compound) succeed; the classic ones count no break if and only if the stored rows leave no cursor out, the compound ones none; no state differs; unread ahead is counted exactly when a batch has one; the two classic ones deliver the same events if and only if absorbed payloads carry their rows' versions; and regrouped and stored rows end in the same final state if and only if the absorbed rows that are the last state of their entity do |
| Versions.CompareVersions | backend/internal/agentadapter/version.go:75-93 | The loop over the longer version computes the comparison the lemmas below characterise |
| Versions.CompareMeaning | backend/internal/agentadapter/version.go:72-93 | Zero exactly for versions whose zero-padded segments agree, negative exactly when the first differing segment is smaller, and antisymmetric |
| Versions.CompareTransitive | backend/internal/agentadapter/version.go:75-93 | A total preorder over versions of any lengths: transitive, with equality only between equals |
| Specificity.WrittenSegmentsReadBack | backend/internal/agentadapter/version.go:95-115 | A version written as decimal numbers with dots or dashes between them has exactly these numbers as segments, up to the largest int64 |
| Specificity.WindowOfNumbers | backend/internal/agentadapter/version.go:45-58 | For bounds and a version written in numbers: accepted if and only if not below the minimum and below the maximum, missing segments counting as zero |
| Specificity.NoVersionIsAccepted | backend/internal/agentadapter/version.go:45-49 | A blank version is accepted by every range |
| Versions.ContainsRespectsEquality | backend/internal/agentadapter/version.go:45-58 | A range accepts two equal non-blank versions alike |
| Versions.ContainsIsConvex | backend/internal/agentadapter/version.go:45-58 | What lies between two accepted non-blank versions is accepted |
| Versions.ParseVersionRange | backend/internal/agentadapter/version.go:19-41 | The loop over the fields yields the bounds, the later of one side winning, or the first invalid field |
| Versions.OperatorsMean | backend/internal/agentadapter/version.go:26-39 | >= and > give the minimum, <= and < the maximum, and a word without operator is the error |
| Versions.LaterWordWins | backend/internal/agentadapter/version.go:25-41 | The later of two bounds of one side wins, and the first word without operator is the error |
| Versions.ParsedBoundsHaveNoSpace | backend/internal/agentadapter/version.go:26-39 | Parsed bounds never hold whitespace |
| Versions.ParsePrinted | backend/internal/agentadapter/version.go:19-70 | The parsed text of a range without whitespace is the range, minus one leading '=' of its maximum |
| Versions.RoundTripExact | backend/internal/agentadapter/version.go:19-70 | A range survives printing and parsing if and only if its bounds hold no whitespace and the maximum does not start with '=' |
| Versions.LeadingEqualsIsLost | backend/internal/agentadapter/version.go:19-70 | The range with maximum "=1" is printed as <=1 and comes back with maximum "1" |
| Specificity.SharedVersionPrefix | backend/internal/agentadapter/registry.go:216-234 | The loop counts the leading segments both bounds declare with equal numbers; 0 for a missing bound |
| Specificity.VersionPrecision | backend/internal/agentadapter/registry.go:236-247 | The loop counts the non-empty segments |
| Specificity.BoundsTransitive | backend/internal/agentadapter/registry.go:125-156 | The comparison of window bounds is a total preorder among windows with equally many bounds |
| Specificity.SpecificityTotal | backend/internal/agentadapter/registry.go:115-175 | Antisymmetric, and of two adapters with different ids exactly one comes first |
| Specificity.SpecificityTransitive | backend/internal/agentadapter/registry.go:115-175 | Coming first is transitive across all seven keys |
| Specificity.SpecificityMeaning | backend/internal/agentadapter/registry.go:113-203 | On what adapters declare, which comes first: more bounds; then more shared segments; then the higher minimum, a minimum rather than a maximum alone, the lower maximum; then more written segments; then, if and only if, more required capabilities, more optional ones, or the smaller id |
| Specificity.SameWindowRicherFirst | backend/internal/agentadapter/registry.go:160-175 | Adapters declaring the same window: more required capabilities come first, then more optional ones, then the smaller id, and nothing else does |
| Specificity.RequiredOutranksOptional | backend/internal/agentadapter/registry.go:160-165 | One required capability outranks any number of optional ones |
| Specificity.NegativeSegment | backend/internal/agentadapter/version.go:101-115 | A segment of thirteen tildes has a negative number, by int64 overflow of the fallback hash |
| Specificity.SomethingBelow | backend/internal/agentadapter/version.go:75-115 | Every version has one below it |
| Specificity.WithinIsBoundsWithin | backend/internal/agentadapter/version.go:45-58 | For a non-empty window, accepting only versions another window accepts is the same as having bounds inside the other's |
| Specificity.PrefixBetween | backend/internal/agentadapter/registry.go:216-234 | A version between two versions with a common prefix has that prefix |
| Specificity.ContainedSharesMore | backend/internal/agentadapter/registry.go:216-234 | A contained two-sided window with bounds of equal length has at least as long a shared prefix |
| Specificity.NarrowerWinsExactly | backend/internal/agentadapter/registry.go:113-175 | An adapter whose non-empty window lies strictly inside another's comes first if and only if it has more bounds or at least as long a shared prefix |
| Specificity.NarrowerWins | backend/internal/agentadapter/registry.go:113-175 | It comes first in particular when one window is one-sided or unbounded, or all four bounds have equally many segments |
| Specificity.ShorterBoundsLose | backend/internal/agentadapter/registry.go:113-175 | A concrete window strictly inside another one that ranks below it |
| AdapterRegistry.Registry.constructor | backend/internal/agentadapter/registry.go:29-34 | A new registry is empty |
| AdapterRegistry.Registry.Register | backend/internal/agentadapter/registry.go:38-58 | Appends the adapter, records its id, adds it to its family and sorts every family; a duplicate id fails and changes nothing |
| AdapterRegistry.Registry.RegisterAlias | backend/internal/agentadapter/registry.go:62-74 | The alias resolves to the canonical id's adapter; an unknown target or a taken alias fails and changes nothing |
| AdapterRegistry.Registry.LookupByID | backend/internal/agentadapter/registry.go:77-81 | The adapter recorded under the id, or none |
| AdapterRegistry.Registry.LookupByFamily | backend/internal/agentadapter/registry.go:84-90 | The family's list, empty for an unknown family |
| AdapterRegistry.InsertRanks | backend/internal/agentadapter/registry.go:53-57 | Inserting into a strictly ranked list by the comparator keeps it strictly ranked |
| AdapterRegistry.SortRanks | backend/internal/agentadapter/registry.go:53-57 | Sorting adapters with distinct ids ranks them strictly and keeps exactly the same adapters |
| AdapterRegistry.RankedIsUnique | backend/internal/agentadapter/registry.go:53-57 | A strictly ranked list is determined by its members |
| AdapterRegistry.StepKeepsIds | backend/internal/agentadapter/registry.go:38-74 | Every successful registration or alias keeps the id table exact: every adapter and alias, and nothing else |
| AdapterRegistry.RunIsExact | backend/internal/agentadapter/registry.go:38-90 | After every panic-free run, each family list holds exactly its registered adapters, strictly ranked, and the id table is exact |
| AdapterRegistry.RunSucceedsExactly | backend/internal/agentadapter/registry.go:38-74 | A run is free of panics if and only if every registration takes a name not yet given and every alias takes a new name for a given one |
| AdapterRegistry.RegistrationOrderIrrelevant | backend/internal/agentadapter/registry.go:38-90 | Two panic-free runs of the same operations in any order give the same family lists and the same id table |
| AdapterSelector.CheckCapabilities | backend/internal/agentadapter/version.go:119-134 | The required capabilities the client does not declare, in order |
| AdapterSelector.MissingInOrder | backend/internal/agentadapter/version.go:119-135 | The missing capabilities are the required ones that are not declared, each as often as required, in order |
| AdapterSelector.SelectByMeta | backend/internal/agentadapter/selector.go:27-83 | The scan with its degraded candidate finds the hinted adapter, the first full match, the first degraded one, or the last of the family |
| AdapterSelector.UsableMeaning | backend/internal/agentadapter/selector.go:123-169 | An adapter can serve a client if and only if it supports it and, when the client names its version, its declared window accepts that version; in full if it misses no required capability |
| AdapterSelector.SelectionMeaning | backend/internal/agentadapter/selector.go:19-83 | Without a usable hint, after any run: none for an unknown family; else the unique most specific adapter that is supported, in range and missing nothing, not degraded; else the most specific supported and in range, degraded with its missing capabilities; else the least specific, degraded with its own policy or the basic one |
| AdapterSelector.HintDecides | backend/internal/agentadapter/selector.go:85-119 | A hint naming an adapter or alias decides whatever the family and Supports say, unless the window excludes the version; an unknown hint is ignored |
| AdapterSelector.SelectionIgnoresRegistrationOrder | backend/internal/agentadapter/selector.go:27-83 | Selection is the same after any two panic-free registration orders of the same adapters and aliases |
| AdapterSelector.ClassifyCapabilities | backend/internal/agentadapter/selector.go:205-254 | The two loops split the client's capabilities into supported, degraded and unsupported ones, in order |
| AdapterSelector.AckKeepsOrder | backend/internal/agentadapter/selector.go:205-254 | The supported and unsupported lists keep the client's order, and the degraded list is the missing one when the adapter lists each requirement once |
| AdapterSelector.AckPartitionsCapabilities | backend/internal/agentadapter/selector.go:205-254 | For the client the selection was made for, each declared capability is reported exactly once as supported or unsupported, and the degraded list holds nothing twice; it is the list of missing capabilities if and only if the client declares any or the adapter requires none |
| VoiceOrchestrator.Orchestrator.NotifyUserStarted | voicebridge/openai_orchestrator.py:46-54 | Cancels the timer and closes the open round; nothing after close |
| VoiceOrchestrator.Orchestrator.NotifyUserStopped | voicebridge/openai_orchestrator.py:56-70 | Opens the next round and starts its timer unless muted; nothing after close |
| VoiceOrchestrator.Orchestrator.StartInject | voicebridge/openai_orchestrator.py:74-79 | Up to the await: nothing for an empty text or a closed call |
| VoiceOrchestrator.Orchestrator.ResumeInject | voicebridge/openai_orchestrator.py:79-88 | After the await, of any suspended injection: replies to an open unanswered round unless muted or failed; does not look at closed |
| VoiceOrchestrator.Orchestrator.Mute | voicebridge/openai_orchestrator.py:92-97 | Sets the flag and cancels the timer when muting |
| VoiceOrchestrator.Orchestrator.FireTimer | voicebridge/openai_orchestrator.py:101-108 | A live timer leaves the schedule and replies if its round is open and unanswered and the call neither muted nor closed; a cancelled one does nothing |
| VoiceOrchestrator.Orchestrator.Reply | voicebridge/openai_orchestrator.py:110-118 | Replies once per round, recording the round and cancelling the timer |
| VoiceOrchestrator.Orchestrator.Shutdown | voicebridge/openai_orchestrator.py:125-127 | Closes the call and cancels the timer |
| VoiceOrchestrator.StepKeepsInvariants | voicebridge/openai_orchestrator.py:46-127 | Every event keeps: at most one live timer, for the open, current, unanswered round, and then neither muted nor closed; rounds replied to increase up to the current one |
| VoiceOrchestrator.RunKeepsInvariants | voicebridge/openai_orchestrator.py:46-127 | The same after every interleaving of events, suspended injections included |
| VoiceOrchestrator.FiringTimerReplies | voicebridge/openai_orchestrator.py:101-118 | In every run at most one timer is live, and a live one that fires always replies, to the open round |
| VoiceOrchestrator.UnansweredHasTimer | voicebridge/openai_orchestrator.py:56-70 | In every run an open unanswered round of an open call, with no mute since it opened, has its timer running |
| VoiceOrchestrator.ReplyIsSafe | voicebridge/openai_orchestrator.py:74-118 | In every run an event adds at most one reply, to the open current round, above all earlier ones, never while muted; it comes from a timer of an open call or from an awaiting injection that did not fail |
| VoiceOrchestrator.AtMostOneReplyPerTurn | voicebridge/openai_orchestrator.py:110-118 | Rounds replied to strictly increase and never outnumber the rounds opened |
| VoiceOrchestrator.RoundsCountTurns | voicebridge/openai_orchestrator.py:56-61 | The round number is the number of user turns that finished before the close |
| VoiceOrchestrator.NeverAnswersSpokenOver | voicebridge/openai_orchestrator.py:46-54 | No run replies to a round after the user, heard by the open call, has spoken over it |
| VoiceOrchestrator.OpenRoundExactly | voicebridge/openai_orchestrator.py:46-68 | In every run the open round is the last user turn heard, unless the user has spoken over it |
| VoiceOrchestrator.InjectionRepliesExactly | voicebridge/openai_orchestrator.py:79-88 | In every run a resumed injection replies, to the last turn heard, if and only if it did not fail, the call is not muted and that turn is neither spoken over nor answered; it then stops the timer |
| VoiceOrchestrator.ClosedCallAnswersSpokenOver | voicebridge/openai_orchestrator.py:74-88 | A run in which a suspended injection answers a round the user spoke over after the close |
| VoiceOrchestrator.AtMostOneReplyAfterClose | voicebridge/openai_orchestrator.py:74-88 | Whatever follows a close, at most one more reply happens, and only if an injection was awaiting and the open round unanswered |
| VoiceOrchestrator.RepliesAfterClose | voicebridge/openai_orchestrator.py:74-88 | For every run, close and later events: the replies grow by the open round if it was unanswered and one of the injections awaiting at the close resumes well while the call is not muted, and otherwise not at all |
| VoiceOrchestrator.AnswersAfterCloseExactly | voicebridge/openai_orchestrator.py:74-88 | After a run and a close some later events make the call answer if and only if an injection was awaiting and the open round unanswered |
| VoiceOrchestrator.AnswersSpokenOverExactly | voicebridge/openai_orchestrator.py:46-54 | In every run a reply answers a round the user has spoken over, heard or not, if and only if the user spoke after the close |
| VoiceOrchestrator.AnswersSpokenOverPossible | voicebridge/openai_orchestrator.py:74-88 | After a run and a close the call can answer a round spoken over since if and only if an injection was awaiting and the open round unanswered |
| VoiceOrchestrator.InjectionStartsInRound | voicebridge/openai_orchestrator.py:74-79 | An injection into an open call is remembered with the number of user turns heard; a blank one, or one into a closed call, is not |
| VoiceOrchestrator.AnswersLaterRoundExactly | voicebridge/openai_orchestrator.py:79-86 | In every run an injection that resumes answers a later round than it started in if and only if another user turn finished since, is open and unanswered, and the call is not muted |
| VoiceOrchestrator.NeverAnswersEarlierRound | voicebridge/openai_orchestrator.py:79-86 | In every run it never answers an earlier round |
| VoiceOrchestrator.StaleInjectionAnswersNextTurn | voicebridge/openai_orchestrator.py:79-86 | A run in which the injection for the first turn becomes the reply to the second |
| ReplyQueue.Pipeline.RegisterCall | voicebridge/stt_tts_pipeline.py:46-48 | The call gets a fresh empty queue; other calls keep theirs |
| ReplyQueue.Pipeline.PushReply | voicebridge/stt_tts_pipeline.py:61-70 | Appends the piece exactly for a registered call, and says so |
| ReplyQueue.BridgeTurn.Start | voicebridge/stt_tts_pipeline.py:124-138 | The drain loop leaves the queue empty, counts what it dropped, and waits |
| ReplyQueue.BridgeTurn.Take | voicebridge/stt_tts_pipeline.py:141-154 | A get takes the oldest item, emits its text, and goes on waiting unless it ends the turn |
| ReplyQueue.BridgeTurn.Emit | voicebridge/stt_tts_pipeline.py:112-122 | Emits the stripped text as one chunk, nothing for a blank one |
| ReplyQueue.StepIsMethod | voicebridge/stt_tts_pipeline.py:61-154 | Every step of a run changes the queue and its turn as the push, start, take or give-up method does, and no other turn |
| ReplyQueue.TakeKeeps | voicebridge/stt_tts_pipeline.py:141-154 | A get by any waiting turn keeps conservation and every turn's exact record |
| ReplyQueue.EveryRunConserves | voicebridge/stt_tts_pipeline.py:61-154 | In every run of pushes and turns, even overlapping ones, each pushed item is spoken by exactly one turn, dropped as stale or still queued, in push order; every turn emitted exactly the items it took |
| ReplyQueue.StartDrains | voicebridge/stt_tts_pipeline.py:124-138 | In every run, starting a turn throws away exactly the items queued by then |
| ReplyQueue.QueuedAtStartIsStale | voicebridge/stt_tts_pipeline.py:124-138 | Whatever follows, an item pushed before a turn starts and not taken by then is never spoken |
| ReplyQueue.SpeaksOnlyLaterItems | voicebridge/stt_tts_pipeline.py:124-154 | Whatever follows, a turn speaks only items pushed after it started |
| ReplyQueue.StaleExactly | voicebridge/stt_tts_pipeline.py:124-138 | In every run an item is thrown away if and only if it was queued when some turn started |
| ReplyQueue.LeftoverIsThrownAway | voicebridge/stt_tts_pipeline.py:124-138 | A reply left over from an earlier turn is thrown away, and the new turn takes nothing |
| ReplyQueue.SerialTurnsSpeakBlocks | voicebridge/stt_tts_pipeline.py:124-154 | When turns do not overlap, each takes one contiguous block starting with the first item pushed after its drain, ended by an end-of-turn item or a timeout |
| ReplyQueue.OverlappingTurnsInterleave | voicebridge/stt_tts_pipeline.py:124-154 | A run in which two turns waiting on one queue speak interleaved items |
| ReplyQueue.FinishedTurnSpeaks | voicebridge/stt_tts_pipeline.py:145-154 | A turn that finished without timeout spoke its items up to the first end-of-turn item and took nothing after it |
| InjectFilter.Router.OnInject | voicebridge/main.py:1603-1632 | A blank or stale message changes nothing; an accepted one queues its stripped text, or the stripped tail at the end of a streamed round, and becomes the remembered ordinal of its call only |
| InjectFilter.LastIsRecentMaximum | voicebridge/main.py:1615-1630 | The remembered ordinal is the greatest among the non-blank messages since the last one without a round |
| InjectFilter.AcceptedExactly | voicebridge/main.py:1603-1630 | In every run, a non-blank message is queued if and only if it has no round or is above every non-blank message since the last one without a round |
| InjectFilter.NumberedRoundsKeepRecords | voicebridge/main.py:1615-1620 | If every message has a round, the accepted ones are exactly the strict left-to-right maxima of (round, seq) above (0, 0) |
| InjectFilter.StaleChangesNothing | voicebridge/main.py:1615-1620 | A redelivered or late message changes neither the queue nor what any later message does |
| InjectFilter.UnnumberedResetsFilter | voicebridge/main.py:1618-1630 | After a message without a round, a redelivered one is queued again |
| InjectFilter.StreamedRoundQueuesPiecesAndTail | voicebridge/main.py:1622-1632 | A streamed round queues its pieces in order and then the tail as the end, never the full text again |
| InjectFilter.StreamedRoundIsSpokenOnce | voicebridge/stt_tts_pipeline.py:145-154 | A turn that hears the round from its start speaks each piece once and the tail once, whatever is queued behind |
| OwnerAudio.OwnerTurnDetector.constructor | voicebridge/owner_audio.py:45-52 | Starts silent, with at least one attack frame |
| OwnerAudio.OwnerTurnDetector.Feed | voicebridge/owner_audio.py:58-72 | One frame's effect on the run, the last voiced time and the verdict, which it returns |
| OwnerAudio.DetectorInvariant | voicebridge/owner_audio.py:58-72 | After any frames the counters are the trailing voiced run and the last voiced time, and while inactive the run is shorter than an attack |
| OwnerAudio.StartsOnAttack | voicebridge/owner_audio.py:58-72 | A turn starts exactly on the attack-th voiced frame in a row |
| OwnerAudio.EndsAfterRelease | voicebridge/owner_audio.py:58-72 | A turn ends exactly on an unvoiced frame at least the release time after the last voiced one |
| OwnerAudio.StartsAreBounded | voicebridge/owner_audio.py:58-72 | s turns started within n frames imply s * attack + (s - 1) <= n |
| OwnerAudio.OwnerBridge.BeginTurn | voicebridge/main.py:920-932 | Opens the turn, cancels a pending hold and raises the flag |
| OwnerAudio.OwnerBridge.EndTurn | voicebridge/main.py:942-953 | Closes the turn and schedules a hold |
| OwnerAudio.OwnerBridge.HoldElapsed | voicebridge/main.py:934-940 | A due hold that was not cancelled clears the flag |
| OwnerAudio.OwnerBridge.Consume | voicebridge/main.py:955-976 | One frame: a muted one ends an open turn, leaves the flag and is not fed; else the turn follows the detector's verdict |
| OwnerAudio.OwnerBridge.TrackEnded | voicebridge/main.py:977-983 | The end of the track ends an open turn |
| OwnerAudio.WindowStep | voicebridge/main.py:912-983 | Every event keeps: an open turn has the flag up and no pending hold; without a turn the flag is up exactly while one hold is pending, due a full hold after the turn's end |
| OwnerAudio.WindowHolds | voicebridge/main.py:912-983 | The same after any run of frames, track ends and timers |
| OwnerAudio.NothingPublishedWithinWindow | voicebridge/main.py:880-881 | In every run, when transcripts may be published no turn is open and a full hold has passed since the last turn ended |
| OwnerAudio.HoldReleases | voicebridge/main.py:934-940 | In every run a raised flag without a turn has exactly one live hold, and it clears the flag whenever it fires when due |
| OwnerAudio.TurnFollowsDetector | voicebridge/main.py:965-976 | After every unmuted frame the turn is open if and only if the detector is active |
| OwnerAudio.MutedFrameEndsTurn | voicebridge/main.py:955-964 | In every run a muted frame ends an open turn, schedules its hold, leaves the flag up and goes unheard by the detector; without a turn it changes nothing |
| VolcFrames.WordRoundTrip | voicebridge/main.py:620-623 | A 4-byte big-endian word reads back; as a signed number exactly below two to the 31 |
| VolcFrames.BodyRoundTrip | voicebridge/main.py:366-385 | The offset logic reads the event, as many id bytes as the size says, and the payload when that is the whole id |
| VolcFrames.FrameRoundTrip | voicebridge/main.py:341-385 | For any header with an event flag and any sequence word, both readers find the written event, the id is read back if and only if it is ASCII and then so is the payload, and the transcript reader yields it exactly for server responses with event 451 |
| VolcFrames.NonAsciiIdIsCut | voicebridge/main.py:620-623 | A one-letter id of two bytes is read back as its first byte |
| VolcFrames.ParseBuiltFrame | voicebridge/volc_fix.py:26-44 | The event parser reads the event of a built frame whatever follows it |
| VolcFrames.ReadersAgree | voicebridge/volc_fix.py:26-44 | On any bytes, the event parser's number is the transcript reader's |
| VolcFrames.NoEventFlagNoEvent | voicebridge/volc_fix.py:26-44 | Without the event flag neither reader finds an event and nothing is dropped |
| VolcFrames.SmallFrames | voicebridge/volc_fix.py:26-44 | Three concrete frames: an event behind a plain header, behind a sequence word, and unread without the flag |
| VolcFrames.NegativeSizeStepsBack | voicebridge/main.py:381-385 | The id size is signed: at -4 the reader steps back and takes the size word for that of the payload |
| VolcFrames.DropsExactlyDuplicateEnds | voicebridge/volc_fix.py:47-54 | A built frame is dropped exactly when it carries the end-of-speech event and no generation is active |

## Left out

- JSON text: payloads are values, so escape spellings, duplicate and case-folded keys, malformed text and non-integer `state_version` texts are not modelled; error texts, byte counts, report printing and database access neither.
- The three tables of `fold` are one record of three maps, and a part carries its payload, which the source looks up on demand.
- Kinds of rows hold no NUL in the theorems on final states and unread counts, which compare fold keys: the database's text columns cannot hold one.
- SyncReplay.ShapedReplay: the unread count and the absence of breaks are claimed for rows whose reserved cursors do not overlap, as the stream's writer reserves them; only the first row may have been delivered in part.
- Start cursors are not negative in the theorems about `first_cursor`, since 0 means that the member is absent.
- Specificity.NarrowerWins: asks for equally many segments in two-sided windows, because the comparator does not rank the others by containment (`ShorterBoundsLose`, exact condition in `NarrowerWinsExactly`).
- The stable sort is a function, not the library's in-place algorithm; registry locking, logging, the lists of all adapters and families, and the adapters' message normalisation are not modelled. A panic is a refused step.
- An adapter's `Supports` is a function of the client's metadata; the `UnsupportedCapabilities` field of a selection, which selection never fills, is not modelled.
- The order in which Go ranges over the families while sorting does not exist in the model; every family is sorted on its own.
- An injection's `round_seq` argument, which the orchestrator does not use.
- Orchestrator: the length of the race, logging, and callbacks that call back into the orchestrator.
- Reply queue: cancellation of a running turn, and a get that completes in the very moment it times out; contiguous blocks are claimed only for turns that do not overlap.
- Inject filter: what `on_inject` does for calls outside the pipeline, message decoding, and the life cycle of calls.
- Owner bridge: toggling and pushing audio, a failing task creation, the removal of the flag when the task ends, and the square root inside the loudness, which is a real number here.
- Frames: compression and JSON of payloads, the concrete header (any well-formed one is allowed), and exceptions caught by the readers.
- Discovery, loading and merging of fonts, the admin routes, provider set-up, web and desktop shells.
