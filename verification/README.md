# Verified model of the voiceai engine's stateful cores

This project models the parts of the voiceai repository that carry state, a protocol or a parser, and
proves what they promise. Each module follows one source file:

| module | models |
|---|---|
| Repository, Scoped | the in-memory document repository and the tenant-scoped view over it |
| PageWalk, Retention | the page walker, and the retention pass that erases while it walks |
| Messages, ResponsesChain, RepairedChain | conversion to Responses API input, the client/server chaining protocol, and the history repair under it |
| History, HistoryEdits, ToolTurns, HistoryPairs, Conversation | the conversation history: its assistant/tool grammar, the repair, the edits, turns with tool calls, and what it converts to |
| TextToolCalls, ContentStream | scanners for tool calls narrated as text, and the streaming loop that speaks around them |
| Marks, Playout | playback marks with shared records, their counters, the playout clock and the stall watchdog |
| Detector, Soniox, SonioxTurns, Reconnect | the language detector's turn buffer, token folding, both together, and bounded reconnects |
| PendingDials, HedgedJudge, ClientPool | the claim-once dial registry, the hedged language decision, the double-checked client pool |
| QueryUrl, VarMarkers | query assembly and filling of request-body markers |

Classes carry the fields their source updates and are proved against functions over values; the laws are
lemmas about those functions. Protocols whose steps interleave (chaining, reconnects, hedging, the client
pool) are state machines with one step per await or per shared access, and the laws hold for every run.
Times and durations are reals; clock readings, fresh ids and random references are inputs, the clock
nondecreasing and the rest unused before.

Where the code and its documentation disagree, the model follows the code:

- `voiceai/lid/soniox.py:76` promises that a tie between languages goes to the latest seen. When the last
  tagged language is not among the tied ones the code takes the tied language *first* seen last
  (`Soniox.LatestSeenCanLoseASegment`); `Soniox.SegmentLatestSeenIff` says exactly when the promise is kept.
- `voiceai/core/container.py:1014` promises to erase every active row past its TTL. The pass shrinks the
  listing it pages through, so rows that move up are not read; `Retention.OnePassSufficesIff` says exactly
  when one pass keeps the promise, and `Retention.PassesConverge` that repeated passes do.
- `voiceai/helpers/conversation_history.py:114` adopts a turn's placeholder so that its calls and results stay
  together. Calls that go to a reply with rows behind it are still separated from their results, and a second
  batch of calls replaces the first; `ToolTurns.ToolTurnStaysWhole` says exactly when a turn stays whole
  (`ToolTurns.LateCallIsLost`, `ToolTurns.SecondCallBreaksTheFirst`).
- `voiceai/llms/azure_llm.py:332` says that a narrated call is never speech. A second one in the delta that
  completes the first is not scanned and can be spoken (`ContentStream.SecondCallIsSpoken`);
  `ContentStream.SpeaksCallIff` says exactly when.
- `voiceai/database/scoped.py:90` stamps an insert but does not look at who holds a known id;
  `Scoped.InsertLeavesOthersAloneIff` says exactly when other tenants are unaffected.

An interruption hint is consumed by the request that is built next, not by the one that is delivered
(`voiceai/llms/openai_base.py:291`): a retry after a stale id or an empty incomplete response goes out
without it. `ResponsesChain.HintDeliveredIff` says exactly when the server gets it.

`dafny verify dfyconfig.toml` checks the whole project.

## Model

| member | source | states |
|---|---|---|
| Repository.PutLookup | voiceai/database/repository.py:209-227 | writing one key of the id-keyed collection keeps ids set and unique and every other key readable as before |
| Repository.PutPlaces | voiceai/database/repository.py:209-227 | writing an existing key keeps its place in the order, a new key goes last |
| Repository.GetIff | voiceai/database/repository.py:229-242 | a lookup by id finds the one active document under it |
| Repository.SelectAppend | voiceai/database/repository.py:257-272 | a listing follows the order of the collection |
| Repository.OneFilter | voiceai/database/repository.py:347-365 | what a filter on one field asks of a document |
| Repository.PageWindow | voiceai/database/repository.py:257-272 | the rows from (page - 1) * size on, at most size of them, with the exact total, for every page size |
| Repository.FindManyWindow | voiceai/database/repository.py:337-345 | the first matches, at most the limit and never more than 100 |
| Repository.FindFirstIs | voiceai/database/repository.py:330-335 | the first document in listing order that is active and has the value |
| Repository.SelectMembers | voiceai/database/repository.py:347-365 | a listing holds exactly the active documents that match every filter |
| Repository.SelectWellKeyed | voiceai/database/repository.py:257-272 | a listing never repeats a document |
| Repository.InMemoryRepository.Insert | voiceai/database/repository.py:209-227 | stores the model given, under its own or the drawn id, replacing whatever was there, and touches nothing else |
| Repository.InMemoryRepository.Get | voiceai/database/repository.py:229-242 | returns the stored document only while it is active |
| Repository.InMemoryRepository.ListWhere | voiceai/database/repository.py:257-272 | a window of at most the page size over all active matches, with their exact number as total |
| Repository.InMemoryRepository.FindOne | voiceai/database/repository.py:330-335 | the first active match in listing order, found by the scan |
| Repository.InMemoryRepository.Update | voiceai/database/repository.py:274-300 | succeeds exactly when an active document stands under the id; stores and returns the model given with the new write time; else changes nothing |
| Repository.InMemoryRepository.SoftDelete | voiceai/database/repository.py:302-323 | reports true exactly when this call deactivated the document, which then reads as missing and keeps its fields but the write time and the user |
| Scoped.ScopedListIsPrivate | voiceai/database/scoped.py:127-154 | a scoped page equals the page of a repository holding only this tenant's rows: rows, order, window and total, for every filter |
| Scoped.ScopedGetIsPrivate | voiceai/database/scoped.py:96-101 | a scoped get answers as the private repository would |
| Scoped.OwnStep | voiceai/database/scoped.py:90-171 | each operation commutes with taking the private view: same reply, same private rows afterwards |
| Scoped.OtherStep | voiceai/database/scoped.py:90-171 | no operation moves any other tenant's private rows |
| Scoped.StepKeepsKeys | voiceai/database/scoped.py:90-171 | every admissible operation keeps the ids of the shared collection set and unique |
| Scoped.TenantsAreIsolated | voiceai/database/scoped.py:48-171 | over any interleaving of any tenants' operations, a tenant observes exactly what a private repository receiving only its own operations replies, and both stay legal repositories |
| Scoped.UpdateThenGet | voiceai/database/scoped.py:156-166 | an update reaches exactly an own active row; the reply and later reads carry the fields given |
| Scoped.InsertThenGet | voiceai/database/scoped.py:90-94 | an insert is read back with the fields given, stamped with the tenant |
| Scoped.DeleteThenGet | voiceai/database/scoped.py:168-171 | a delete reaches exactly an own active row, which stays as a tombstone |
| Scoped.InsertLeavesOthersAloneIff | voiceai/database/scoped.py:90-94 | insert does not check who holds a known id: other tenants' rows are untouched if and only if no other tenant holds it |
| Scoped.FindManyIsAPrefix | voiceai/database/scoped.py:184-197 | the bounded scoped lookup returns a prefix of the private answer, and all of it if and only if every match within the bound is an own row or none behind the bound is |
| Scoped.FindOneShadowedIff | voiceai/database/scoped.py:173-182 | find_one is sound, and complete exactly when the first match of the whole collection is an own row or there is no own match |
| Scoped.TenantScopedRepository.Bind | voiceai/database/scoped.py:61-66 | binding an empty tenant fails |
| Scoped.TenantScopedRepository.Insert | voiceai/database/scoped.py:90-94 | the write-through step of the shared store, stamped with the tenant |
| Scoped.TenantScopedRepository.Get | voiceai/database/scoped.py:96-101 | foreign and pre-tenancy rows read as missing |
| Scoped.TenantScopedRepository.ListWhere | voiceai/database/scoped.py:127-154 | the page is that of the tenant's private rows, also when a filter names another tenant |
| Scoped.TenantScopedRepository.Update | voiceai/database/scoped.py:156-166 | replaces an own active row only; anything else is not found |
| Scoped.TenantScopedRepository.SoftDelete | voiceai/database/scoped.py:168-171 | deactivates an own active row only; anything else is not found |
| PageWalk.NextPageExists | voiceai/common/pagination.py:62-81 | has_next holds exactly when rows remain behind the page, for every page size |
| PageWalk.PagesTileTheListing | voiceai/common/pagination.py:35-50 | the windows of consecutive pages tile the listing without gap or overlap |
| PageWalk.WalkPages | voiceai/database/repository.py:143-177 | the walk ends for every backend with bounded totals, at the first page that is empty or last, having yielded every row up to there |
| PageWalk.WalkRepository | voiceai/database/repository.py:143-177 | over an unchanging repository every active match is yielded exactly once, in order, in max(1, ceil(n/100)) queries |
| PageWalk.ScopedWalkIsPrivate | voiceai/database/scoped.py:127-154 | the pages of a scoped walk are the pages of the private walk |
| PageWalk.WalkScoped | voiceai/database/repository.py:143-177 | walking a tenant view yields exactly that tenant's active matches |
| Retention.PassOnlyRetiresExpired | voiceai/core/container.py:1004-1020 | a pass never deactivates an unexpired row and changes nothing else |
| Retention.PassKeepsTheCutoff | voiceai/core/container.py:1004-1020 | only active rows last written before the cutoff become tombstones; of a listing of one page exactly the others stay |
| Retention.PassErasesFirstExpired | voiceai/core/container.py:1013-1020 | erasing while offset-paging, every expired row up to the end of the page that holds the first one is erased |
| Retention.PassMakesProgress | voiceai/core/container.py:1013-1020 | if any active row is expired, one pass leaves strictly fewer; otherwise it changes nothing |
| Retention.PassesConverge | voiceai/core/container.py:1013-1020 | repeated passes at one cutoff reach a state with no expired active row, after at most as many passes as there were such rows |
| Retention.PassLeaves | voiceai/core/container.py:1013-1020 | what a pass leaves of the listing, in closed form: of each page read the unexpired rows, then as many rows unread as were erased |
| Retention.OnePassSufficesIff | voiceai/core/container.py:1013-1020 | one pass erases every expired row, as its docstring promises, if and only if none is among the rows that move up past the walker, which the listing alone decides |
| Retention.OnePassCanSkip | voiceai/database/repository.py:157-159 | with one to two pages of rows, all expired, exactly those behind the first page survive a pass |
| Retention.EraseRows | voiceai/core/container.py:1017-1019 | one page of the pass, row by row, counting what it deactivated |
| Retention.Erase | voiceai/core/container.py:1013-1020 | the pass itself: its count is the number of rows deactivated, and zero exactly when nothing was expired |
| Messages.ConvertAppend | voiceai/llms/message_models.py:56-114 | conversion to input items distributes over concatenation of histories |
| Messages.ConversionSays | voiceai/llms/message_models.py:56-114 | the items say what the rows say, kind by kind and in order: texts of each role, calls with names and arguments, tool outputs |
| Messages.TextBeforeCalls | voiceai/llms/message_models.py:84-99 | within one reply the text comes before the calls |
| Messages.AppendRowItems | voiceai/llms/message_models.py:66-112 | one row appends its text, its calls in order, or its tool output |
| Messages.ChatToResponsesInput | voiceai/llms/message_models.py:56-114 | the loop computes the row-by-row conversion: for each role the texts are the contents of its rows in order, absent text being empty but an absent reply none, and no other message occurs |
| ResponsesChain.ResponsesClient.ExtractNewInput | voiceai/llms/openai_base.py:327-341 | the items after the last assistant row, found by a backward scan |
| ResponsesChain.ResponsesClient.BuildResponsesInput | voiceai/llms/openai_base.py:286-310 | chained delta or full history, the missing-output fallback, and the hint consumed and prepended |
| ResponsesChain.ResponsesClient.BuildCreateArguments | voiceai/llms/openai_base.py:443-485 | the previous id is sent exactly when the input is a delta |
| ResponsesChain.BuildSendsDeltaIff | voiceai/llms/openai_base.py:286-341 | a build continues the previous response exactly when there is one and every call it made has a tool row; then it sends the rows behind the last reply, else all; the hint goes first |
| ResponsesChain.HintQuotes | voiceai/llms/openai_base.py:312-321 | the hint quotes the stripped heard text |
| ResponsesChain.ResponsesClient.InvalidateResponseChain | voiceai/llms/openai_base.py:363-366 | the chain, the pending calls and the hint are all forgotten |
| ResponsesChain.ResponsesClient.OnBadRequest | voiceai/llms/openai_base.py:533-547 | only a chained request is retried, with the chain cleared |
| ResponsesChain.RequestFaithfulIff | voiceai/llms/openai_base.py:286-310 | a request that continues no response means the whole history; one that does means it if and only if what the server holds under it is what the rows up to the last assistant row convert to |
| ResponsesChain.SendIsFaithful | voiceai/llms/openai_base.py:286-310 | one build in step with the server means the same as the whole history, chained or not, across the missing-output fallback |
| ResponsesChain.SendKeepsInv | voiceai/llms/openai_base.py:286-310 | a build keeps server and client in step and uses the pending hint at most once |
| ResponsesChain.ReplyKeepsStep | voiceai/llms/openai_base.py:638-641 | when the reply row converts to the server's output, client and server stay in step |
| ResponsesChain.CompletedIsContinued | voiceai/llms/openai_base.py:638-641 | a completed response is continued by the next request once every call it made has a result |
| ResponsesChain.StartsOver | voiceai/llms/openai_base.py:533-575 | a broken response, an edit and a rejected chained request leave the next request to start over |
| ResponsesChain.StepKeepsInv | voiceai/llms/openai_base.py:531-575 | every step of the two-party protocol keeps them in step: completion, stale id, failure, incompleteness, abandonment, edits |
| ResponsesChain.ChainingMeansFullHistory | voiceai/llms/openai_base.py:286-341 | in every run, every request built in step means the same as sending the full history, only one that continues an abandoned response is not in step, and each hint is placed in at most one request, at its head |
| ResponsesChain.AbandonedFaithfulIff | voiceai/llms/openai_base.py:549-561 | a request that continues a response nobody read to its end is faithful if and only if the history holds what was sent and the output so far |
| ResponsesChain.SilentEditFaithfulIff | voiceai/llms/openai_base.py:327-341 | editing the history without invalidating the chain is harmless if and only if the rows up to the last assistant row still convert to the same items |
| RepairedChain.RepairFaithfulIff | voiceai/helpers/conversation_history.py:280-282 | the repair before a build is harmless to a chained request if and only if the last reply keeps its calls, or a missing tool output has the full history sent |
| RepairedChain.RepairHarmlessIff | voiceai/helpers/conversation_history.py:280-282 | with the ids of a completed stream pending, it is harmful if and only if it takes the calls off the last reply and every one of their ids had been answered in an earlier turn |
| ResponsesChain.ResponsesClient.SetInterruptionHint | voiceai/llms/openai_base.py:323-325 | arms a hint for the next build |
| ResponsesChain.ResponsesClient.OnCreated | voiceai/llms/openai_base.py:553-554 | the chain continues the response as soon as it is created |
| ResponsesChain.ResponsesClient.OnCompleted | voiceai/llms/openai_base.py:638-641 | the chain continues the completed response and waits for its call ids |
| ResponsesChain.HintReachesIff | voiceai/llms/openai_base.py:286-310 | what becomes of a hint: it is in a request that ended in given ways if and only if the first move after it, other than rows coming in, is such a request |
| ResponsesChain.HintDeliveredIff | voiceai/llms/openai_base.py:531-575 | over whole runs: the server gets a hint exactly when the next request is neither rejected nor failed, and a reply is given to it exactly when that request is answered in full |
| ResponsesChain.RejectedRequestLosesItsHint | voiceai/llms/openai_base.py:533-545 | the full-history retry of a rejected chained request that carried a hint carries none |
| History.WellFormedSplit | voiceai/helpers/conversation_history.py:284-292 | the assistant/tool grammar can be checked piecewise at any non-tool row |
| History.WellFormedByPosition | voiceai/helpers/conversation_history.py:284-292 | the grammar said by position: every call row answered right behind it by one tool row per id, and no tool row elsewhere |
| History.AwaitedIff | voiceai/helpers/conversation_history.py:299-322 | an id is awaited when some call of the row has it and it is not empty, and given when some tool row is for it |
| History.AnsweredOnce | voiceai/helpers/conversation_history.py:284-292 | each non-empty id of an answered row has exactly one tool row |
| History.SanitizeIsWellFormed | voiceai/helpers/conversation_history.py:284-358 | the repaired history is well formed, whatever it was |
| History.SanitizeFixedIff | voiceai/helpers/conversation_history.py:284-358 | a history is left unchanged if and only if it is well formed, and repairing twice is repairing once |
| History.SanitizeSplit | voiceai/helpers/conversation_history.py:284-358 | the repair is local: a break in one part costs nothing elsewhere |
| History.SanitizeKeepsSpoken | voiceai/helpers/conversation_history.py:284-358 | every user, system and call-free row and every assistant row with non-blank content survives, in order |
| HistoryEdits.TrimAtKeepsGrammar | voiceai/helpers/conversation_history.py:237-259 | trimming one assistant row, to any text, keeps the grammar |
| HistoryEdits.TrimKeepsGrammar | voiceai/helpers/conversation_history.py:198-259 | last, turn and response trims keep the grammar for every history and every update function |
| HistoryEdits.TrimIsExact | voiceai/helpers/conversation_history.py:198-259 | an answer with text is written into the targeted row and nowhere else; a blank one removes the row with its tool rows, or with the replies and tool rows behind it; no target or no content, no change |
| HistoryEdits.PopUnheardKeepsGrammar | voiceai/helpers/conversation_history.py:168-172 | popping the trailing assistant and tool rows keeps the grammar |
| HistoryEdits.UpsertsKeepGrammar | voiceai/helpers/conversation_history.py:94-127 | committing a reply by response or by turn, new or not, keeps a well-formed history well formed and mends no other |
| HistoryEdits.UpsertResponseWrites | voiceai/helpers/conversation_history.py:103-127 | what a commit by response writes, and where: the row of the response, else the open reply of the turn, else a new row |
| HistoryEdits.UpsertTurnWrites | voiceai/helpers/conversation_history.py:94-101 | what a commit by turn writes, and where |
| HistoryEdits.AppendReplyWrites | voiceai/helpers/conversation_history.py:77-92 | what appending a reply writes: a new last row, or the calls into the same reply |
| HistoryEdits.UpsertResponseIsLastWrite | voiceai/helpers/conversation_history.py:103-127 | committing twice under one response uid is committing the last text: one row, also after a placeholder was adopted |
| HistoryEdits.UpsertTurnIsLastWrite | voiceai/helpers/conversation_history.py:94-101 | committing twice for one turn is committing the last text |
| ToolTurns.AttachAnsweredIff | voiceai/helpers/conversation_history.py:145-158 | attaching a turn's calls and appending their results keeps the history well formed if and only if the calls go to a new placeholder or to a reply that nothing stands behind |
| ToolTurns.AttachToLastAnswered | voiceai/helpers/conversation_history.py:138-143 | without a turn the calls always fit |
| ToolTurns.ToolTurnStaysWhole | voiceai/helpers/conversation_history.py:103-158 | whether the repair leaves the turn alone is settled by where its calls go, also when the reply is committed after the results; a commit between calls and results must also find a row to write to |
| ToolTurns.LateResultsAreLost | voiceai/helpers/conversation_history.py:145-158 | when another row that is no tool row has come behind the reply, the repair drops every result of the turn |
| ToolTurns.LateCallIsLost | voiceai/helpers/conversation_history.py:145-158 | a reply with a user row behind it, given a call and its result: the repair drops both |
| ToolTurns.SecondCallBreaksTheFirst | voiceai/helpers/conversation_history.py:145-158 | an answered call of the turn is overwritten by the next one and its result orphaned |
| ToolTurns.FreshTurnIsOneRow | voiceai/helpers/conversation_history.py:103-158 | in a turn without a reply yet, and a response uid not used yet, reply and calls end up in one row right before the results |
| ToolTurns.SpokenTurnIsOneRow | voiceai/helpers/conversation_history.py:103-158 | so they do in a turn whose reply was committed first and is the last row |
| HistoryPairs.WellFormedPairsUp | voiceai/llms/message_models.py:85-112 | a well-formed history converts to items where every output has its call before it and every identified call its output behind it |
| HistoryPairs.VisiblePairsUp | voiceai/helpers/conversation_history.py:280-282 | pairing survives hidden rows as long as a hidden call row hides its tool rows too |
| HistoryPairs.VisiblePairsUpIff | voiceai/helpers/conversation_history.py:280-282 | with distinct call ids, what a well-formed history shows pairs up if and only if every hidden call row hides its tool rows too |
| HistoryPairs.HiddenCallOrphansItsOutput | voiceai/helpers/conversation_history.py:280-282 | hiding a call row alone leaves its output without a call |
| Conversation.MatchTools | voiceai/helpers/conversation_history.py:311-322 | the first tool row for each expected id, in order, and the ids covered |
| Conversation.SanitizeOne | voiceai/helpers/conversation_history.py:299-342 | one call row with its run: kept whole, kept as text, or dropped |
| Conversation.SanitizeToolMessages | voiceai/helpers/conversation_history.py:293-358 | the repair loop computes the repair |
| Conversation.RemoveAt | voiceai/helpers/conversation_history.py:251-257 | the removal loop drops exactly the tool run, or exactly the run of unheard rows |
| Conversation.TrimAtIndex | voiceai/helpers/conversation_history.py:237-259 | the trim of one row |
| Conversation.FindLast | voiceai/helpers/conversation_history.py:198-235 | the backward search finds the last row the target names |
| Conversation.TrimTarget | voiceai/helpers/conversation_history.py:198-235 | a targeted trim, keeping the grammar; no target, no change |
| Conversation.ConversationHistory.AppendUser | voiceai/helpers/conversation_history.py:30-33 | appends a user row and keeps the grammar |
| Conversation.ConversationHistory.AppendAssistant | voiceai/helpers/conversation_history.py:77-92 | a repeat of the last reply adds no row |
| Conversation.ConversationHistory.AttachToolCallsToTurn | voiceai/helpers/conversation_history.py:138-158 | calls go to the last reply of the turn, or to a new placeholder |
| Conversation.ConversationHistory.UpsertAssistantForResponse | voiceai/helpers/conversation_history.py:103-127 | updates the reply of that response, else adopts the turn's placeholder, else appends |
| Conversation.ConversationHistory.UpsertAssistantForTurn | voiceai/helpers/conversation_history.py:94-101 | updates the reply of that turn, else appends, in the history or in its interim copy; the grammar is kept |
| Conversation.ConversationHistory.PopUnheardResponses | voiceai/helpers/conversation_history.py:168-172 | returns the popped rows newest first and leaves the heard prefix, keeping the grammar |
| Conversation.ConversationHistory.SyncAfterInterruption | voiceai/helpers/conversation_history.py:180-196 | the interruption trims on the history keep the grammar |
| Conversation.ConversationHistory.GetCopy | voiceai/helpers/conversation_history.py:280-282 | after any edits the copy comes from a well-formed history; with nothing hidden it pairs up in both directions |
| TextToolCalls.FindToolCallEnd | voiceai/llms/openai_base.py:75-97 | the bracket-counting loop |
| TextToolCalls.EndClosesTheRun | voiceai/llms/openai_base.py:86-97 | the slice ends at the first return of the bracket depth to zero, plus at most one semicolon |
| TextToolCalls.CallIsComplete | voiceai/llms/openai_base.py:75-97 | a dotted name of letters, digits and underscores, white space or none, and a bracketed body is a complete call; a semicolon right behind it belongs to it |
| TextToolCalls.BareObjectIsComplete | voiceai/llms/openai_base.py:82-85 | a bare object of arguments is complete, behind leading white space |
| TextToolCalls.NotACall | voiceai/llms/openai_base.py:75-97 | a name cut short by any other character has no end |
| TextToolCalls.EndIsPrefixStable | voiceai/llms/openai_base.py:75-97 | once a text with a call head has an end, every extension has it too, or one more for a semicolon arriving right there |
| TextToolCalls.BareBraceStableIff | voiceai/llms/openai_base.py:82-85 | a bare brace's end survives an extension if and only if the extension brings no call head |
| TextToolCalls.CapturedIsFragment | voiceai/llms/azure_llm.py:276-288 | an incremental capture yields the one complete call of the whole text, or nothing when there is none |
| TextToolCalls.CaptureIgnoresChunking | voiceai/llms/azure_llm.py:276-309 | from a given start, captured or not and what is captured do not depend on how the text is cut into deltas, up to a final semicolon |
| TextToolCalls.FragmentIsComplete | voiceai/llms/openai_base.py:75-97 | a captured slice is a complete call all by itself |
| TextToolCalls.Find | voiceai/llms/openai_base.py:124-124 | the first occurrence of a name |
| TextToolCalls.OpenWrapper | voiceai/llms/openai_base.py:126-128 | the brace that is still open where the name starts, if any |
| TextToolCalls.FindTextToolCallStart | voiceai/llms/openai_base.py:112-131 | the earliest index where a narrated call begins, among dotted names and open wrappers of offered tools |
| TextToolCalls.WrapperBeginsIff | voiceai/llms/openai_base.py:124-128 | an offered name in an open object begins a call at its brace unless a brace is closed in between |
| TextToolCalls.BeginsCallGrows | voiceai/llms/azure_llm.py:289-292 | a call that begins somewhere in the buffered text still does when more text arrives |
| ContentStream.SplitAtLastSpace | voiceai/llms/azure_llm.py:314-314 | splits at the last space, or not at all |
| ContentStream.Settle | voiceai/llms/azure_llm.py:278-288 | a call that has ended is captured, the newlines behind it dropped, the rest buffered |
| ContentStream.Grow | voiceai/llms/azure_llm.py:276-288 | a capture grows by the delta and is settled when its call ends |
| ContentStream.Flush | voiceai/llms/azure_llm.py:313-316 | a flush falls at the last space or takes a space-free buffer whole |
| ContentStream.BeginCapture | voiceai/llms/azure_llm.py:289-309 | exactly the text before the call is spoken; what is captured, or being captured, starts at the call |
| ContentStream.LegalAtGrows | voiceai/llms/azure_llm.py:271-367 | a piece that stands where it may still does, whatever follows |
| ContentStream.OnContent | voiceai/llms/azure_llm.py:271-316 | one delta: a capture grows, else the earliest call beginning in the buffered text is captured, else the text waits or, when it fills the buffer, is flushed |
| ContentStream.OnToolCalls | voiceai/llms/azure_llm.py:254-257 | what is buffered is spoken before tool calls, and only there |
| ContentStream.Finish | voiceai/llms/azure_llm.py:321-367 | an unfinished call is captured, not spoken, and the rest of the buffer is yielded last |
| ContentStream.StreamContent | voiceai/llms/azure_llm.py:271-367 | chunks, fragments, cut spaces and stripped newlines rebuild the streamed content exactly, in order; every flush takes a full buffer in which no call begins and falls at its last space, or takes it whole without one; only calls are captured; only waiting text is cut short by tool calls or the end |
| ContentStream.CallThenSpeech | voiceai/llms/azure_llm.py:271-367 | a call, newlines and speech, the call cut into deltas in any way once begun: exactly the call is captured and exactly the speech is spoken |
| ContentStream.PlainSpeech | voiceai/llms/azure_llm.py:311-316 | plain text in one delta is spoken as it is, cut at its last space when it fills the buffer |
| ContentStream.SpokenCallIsUnscanned | voiceai/llms/azure_llm.py:271-367 | a spoken chunk that holds the start of a call was cut by the end or by tool calls, and is what came behind a captured call or what a space cut kept |
| ContentStream.SpeaksCallIff | voiceai/llms/azure_llm.py:271-367 | the loop speaks the start of a call if and only if the stream ends, or tool calls come, while one stands in the buffer |
| ContentStream.CallLeftInBuffer | voiceai/llms/azure_llm.py:276-316 | one is left in the buffer only behind a call whose capture has just ended, or by a space cut |
| ContentStream.SecondCallIsSpoken | voiceai/llms/azure_llm.py:293-309 | whatever follows a complete call in its delta, a second call too, is spoken when the stream ends there |
| ContentStream.LoopCaptures | voiceai/llms/azure_llm.py:276-288 | the loop captures from a call on what the incremental capture function says |
| ContentStream.LoopCaptureIgnoresChunking | voiceai/llms/azure_llm.py:276-309 | so what the loop captures from a given start does not depend on how the text is cut into deltas, up to a final semicolon |
| Marks.FinalForever | voiceai/helpers/mark_event_meta_data.py:171-218 | an acked, cleared or interrupted mark stays so, and no mark leaves the book |
| Marks.FirstEventSettles | voiceai/helpers/mark_event_meta_data.py:171-218 | a pending mark is settled by the first event that names it or the first clear |
| Marks.MarkEventMetaData.UpdateData | voiceai/helpers/mark_event_meta_data.py:91-130 | a sent mark becomes pending, its record shared by both tables, its audio queued on the playout clock and counted; pre marks are not counted |
| Marks.MarkEventMetaData.DropData | voiceai/helpers/mark_event_meta_data.py:171-177 | a cleared echo is settled as cleared in the shared record |
| Marks.MarkEventMetaData.FetchData | voiceai/helpers/mark_event_meta_data.py:179-197 | an ack settles a pending mark as acked in the shared record |
| Marks.MarkEventMetaData.ClearData | voiceai/helpers/mark_event_meta_data.py:199-218 | an interruption settles every pending mark and no other, counts as interrupted exactly the sequences of the pending marks, resets the playout clock and keeps a copy of what it cleared |
| Marks.MarkEventMetaData.RecordAck | voiceai/helpers/mark_event_meta_data.py:132-141 | an ack counts once, and its delay when it is not negative; only the statistics change |
| Marks.EnsureSequence | voiceai/helpers/mark_event_meta_data.py:55-58 | finds the entry of a sequence or appends a fresh one |
| Marks.StatsStepEffect | voiceai/helpers/mark_event_meta_data.py:113-141 | a count moves the totals and its own sequence by its worth, and no other sequence |
| Marks.CountsAreConserved | voiceai/helpers/mark_event_meta_data.py:113-141 | totals equal the per-sequence sums plus the sequence-less counts, delays included, and each sequence holds exactly its own |
| Marks.SequenceSends | voiceai/helpers/mark_event_meta_data.py:113-130 | a sequence is dated from its first send to its last, holds the audio of its sends and belongs to the first turn named |
| Marks.StatsGoOn | voiceai/helpers/mark_event_meta_data.py:113-214 | counting on from where a call stands is counting everything, so an interruption is one more stretch of counts |
| Marks.InterruptedIff | voiceai/helpers/mark_event_meta_data.py:209-214 | a sequence is interrupted if and only if an interruption named it after something had been sent or acked for it |
| Marks.OccursIsMultiplicity | voiceai/helpers/mark_event_meta_data.py:134-141 | comparing occurrences of every delay is comparing multisets |
| Playout.ClosedForm | voiceai/helpers/mark_event_meta_data.py:75-89 | the playout clock is the maximum over counted chunks since the last drop of send time plus all audio from there on |
| Playout.StillPlayingIff | voiceai/helpers/mark_event_meta_data.py:83-85 | audio is estimated to play exactly while more was handed over than time has passed, from some chunk on |
| Playout.PlayoutClock.NoteAudioQueued | voiceai/helpers/mark_event_meta_data.py:75-81 | the recurrence, which empty chunks and the online check leave alone; the clock never runs back when audio is queued |
| Playout.PlayoutClock.DropPlayoutEstimate | voiceai/helpers/mark_event_meta_data.py:87-89 | discarded audio resets the clock |
| Playout.EstimateOnlyDelays | voiceai/agent_manager/task_manager.py:1599-1630 | measured silence lies between 0 and the time since the last transmitted chunk; the estimate can delay a stall hangup, never cause one |
| Playout.HangupIff | voiceai/agent_manager/task_manager.py:1599-1615 | a stall is hung up on exactly when that is switched on, nothing plays or is generated, and both sides were silent for longer than the limit and 20 seconds |
| Playout.HangupAfterAllAudio | voiceai/agent_manager/task_manager.py:1599-1630 | a stall hangup comes only after all counted audio ended longer ago than the timeout |
| Detector.EvictionIsCumulative | voiceai/lid/base.py:209-212 | evicting at every segment keeps what one eviction at the end would keep |
| Detector.RunGrows | voiceai/lid/base.py:216-217 | the streak is the trailing run of one language |
| Detector.Longest | voiceai/lid/base.py:215-215 | the longest retained segment |
| Detector.JoinsWithSpaces | voiceai/lid/base.py:214-214 | the texts are joined with one space |
| Detector.TurnBuffer.Accumulate | voiceai/lid/base.py:195-219 | a segment since the drain is retained if and only if it is within 30 seconds of the last accumulate; text, longest duration, event flag, language and streak agree with the segments |
| Detector.TurnBuffer.TakeTurnTranscript | voiceai/lid/base.py:268-283 | returns the stripped text and the language and empties the buffer |
| Soniox.FeedAppend | voiceai/lid/soniox.py:98-124 | feeding tokens in two stretches is feeding them at once |
| Soniox.BatchingIsIrrelevant | voiceai/lid/soniox.py:98-124 | segments depend only on the flattened token sequence |
| Soniox.UtteranceFold | voiceai/lid/soniox.py:102-117 | an utterance folds to the text and language counts of exactly its final non-empty tokens |
| Soniox.CountedIs | voiceai/lid/soniox.py:102-111 | exactly the final tokens with text count, in order |
| Soniox.ShortIs | voiceai/lid/soniox.py:112-115 | a tag counts up to its first dash, in lower case |
| Soniox.UtteranceSpan | voiceai/lid/soniox.py:118-124 | its span runs from the first time seen to the latest end |
| Soniox.UtteranceSegment | voiceai/lid/soniox.py:60-94 | an endpoint yields at most one segment, with the utterance's text, elected language and span, and starts afresh |
| Soniox.TableTabulates | voiceai/lid/soniox.py:116-116 | the count table holds each language once, with its count, in order of first appearance |
| Soniox.WinnerIsDominant | voiceai/lid/soniox.py:75-79 | the elected language has a maximal count; the last tagged language wins if tied, else the tied one first seen last |
| Soniox.LatestSeenWinsIff | voiceai/lid/soniox.py:76-79 | the promised tie-break, latest seen, holds if and only if the last tagged language is tied or the tied language first seen last is also seen last |
| Soniox.SegmentLatestSeenIff | voiceai/lid/soniox.py:60-94 | the same of the segment an utterance yields |
| Soniox.LatestSeenCanLose | voiceai/lid/soniox.py:76-79 | language tags on which the latest seen tied language loses |
| Soniox.LatestSeenCanLoseASegment | voiceai/lid/soniox.py:75-79 | a token sequence whose segment is put down to the tied language that was not seen last |
| SonioxTurns.SonioxDetector.FlushPendingSegment | voiceai/lid/soniox.py:60-94 | moves the pending utterance into at most one segment, handed to the turn buffer |
| SonioxTurns.SonioxDetector.HandleMessage | voiceai/lid/soniox.py:98-124 | the token loop computes the fold |
| SonioxTurns.SonioxDetector.Receive | voiceai/lid/soniox.py:153-155 | after any messages, however batched, the turn's text, longest segment, language and streak are those of the segments the flattened tokens fold to |
| SonioxTurns.SonioxDetector.TakeTurnTranscript | voiceai/lid/base.py:268-283 | draining returns the text of the retained segments and the last language, and keeps the utterance in progress |
| SonioxTurns.ReadOff | voiceai/lid/base.py:195-219 | text and longest segment are read off the last segments, those within the age bound; language and streak off all |
| Detector.RecentIsTail | voiceai/lid/base.py:209-212 | eviction takes the oldest segments: the tail that stays is exactly those within the age bound |
| Reconnect.StepKeepsInv | voiceai/lid/base.py:102-193 | every step keeps a single live task and the attempt bound of the current chain |
| Reconnect.ReconnectsAreBounded | voiceai/lid/base.py:102-193 | in every run: one live reconnect task, no start after stopping, at most two starts in any chain of episodes at most 30 s apart |
| Reconnect.ScheduleBringsUp | voiceai/lid/base.py:102-111 | a dead socket brings up a task unless one is live or the detector is stopping |
| Reconnect.EnterTriesIff | voiceai/lid/base.py:113-140 | a task tries exactly when not stopping and fewer than two attempts were made, counted afresh after more than 30 seconds |
| Reconnect.FailedTriesIff | voiceai/lid/base.py:113-161 | a failed attempt is followed by another on the same terms, a good one ends the task |
| Reconnect.WokeStartsIff | voiceai/lid/base.py:141-150 | the delay over, a start is made exactly when not stopping |
| Reconnect.QuietEpisodeTriesTwice | voiceai/lid/base.py:102-161 | after a quiet half minute both attempts are made |
| Reconnect.EpisodesTerminate | voiceai/lid/base.py:113-161 | every step of a reconnect task uses up its measure and nobody else adds to it |
| Reconnect.TasksAreBounded | voiceai/lid/base.py:102-161 | in every run every reconnect task takes at most nine steps |
| PendingDials.AvailableIff | local_setup/telephony_server/trunk_bridge.py:343-408 | a dial is available exactly when registered, never claimed and unexpired; no reference is claimed twice |
| PendingDials.Registry.Purge | local_setup/telephony_server/trunk_bridge.py:374-378 | after the lazy purge the dict is exactly the ideal registry with eager expiry |
| PendingDials.Registry.Register | local_setup/telephony_server/trunk_bridge.py:380-396 | refuses exactly when capacity-many unexpired dials wait |
| PendingDials.Registry.Peek | local_setup/telephony_server/trunk_bridge.py:398-402 | answers from the ideal registry without consuming |
| PendingDials.Registry.Claim | local_setup/telephony_server/trunk_bridge.py:404-408 | hands out a dial exactly when it is available, and consumes it |
| PendingDials.Registry.Size | local_setup/telephony_server/trunk_bridge.py:369-372 | counts the unexpired dials, never more than the capacity |
| HedgedJudge.StepKeepsInv | voiceai/helpers/language_switcher.py:266-323 | every step of the race keeps how a decision may end |
| HedgedJudge.HedgedDecision | voiceai/helpers/language_switcher.py:266-323 | under every schedule: the reply is a successful attempt's, one is returned iff some attempt succeeded, errored iff both failed, hedge_won iff the second's reply, nothing left running |
| HedgedJudge.WakeAfterBothDone | voiceai/helpers/language_switcher.py:304-319 | once both attempts are done the next wake ends the decision |
| HedgedJudge.LanguageSwitcher.NoteFailure | voiceai/helpers/language_switcher.py:243-261 | the failure counter and the fallback swap |
| HedgedJudge.LanguageSwitcher.Decide | voiceai/helpers/language_switcher.py:222-241 | a valid null resets the counter, a dead judge or an exception counts |
| HedgedJudge.FailuresAreBadTail | voiceai/helpers/language_switcher.py:222-261 | the counter is the number of consecutive bad verdicts |
| HedgedJudge.SwapIff | voiceai/helpers/language_switcher.py:243-261 | the exact condition under which a verdict swaps the judge, at least two failures in a row among it |
| HedgedJudge.SwappedOnce | voiceai/helpers/language_switcher.py:247-261 | the judge is swapped at most once |
| ClientPool.StepKeepsInv | voiceai/llms/http_client_pool.py:8-35 | every statement of every thread keeps pool, lock and built clients consistent |
| ClientPool.OneClientPerKey | voiceai/llms/http_client_pool.py:8-35 | in every interleaving at most one client is built per key and all callers of a key receive it |
| ClientPool.StepsMakeProgress | voiceai/llms/http_client_pool.py:8-35 | a call returns after at most six steps of its own, for its own key |
| ClientPool.NoDeadlock | voiceai/llms/http_client_pool.py:12-34 | a thread that has not returned can move, or waits for a holder that can |
| QueryUrl.QuoteRoundTrip | voiceai/helpers/function_calling_helpers.py:220-220 | percent-decoding undoes percent-encoding, for all octets |
| QueryUrl.PlainStaysPlain | voiceai/helpers/function_calling_helpers.py:220-220 | unreserved characters are sent as they are |
| QueryUrl.ReservedIsHex | voiceai/helpers/function_calling_helpers.py:220-220 | any other octet as a percent sign and two uppercase hexadecimal digits |
| QueryUrl.ParamRoundTrip | voiceai/helpers/function_calling_helpers.py:220-220 | a printed parameter parses back and holds no separator |
| QueryUrl.QueryRoundTrip | voiceai/helpers/function_calling_helpers.py:216-221 | splitting and decoding the query returns the parameters in order |
| QueryUrl.UrlRoundTrip | voiceai/helpers/function_calling_helpers.py:207-222 | the base url stays a verbatim prefix and the appended part parses back to the parameters |
| QueryUrl.QueryAlphabet | voiceai/helpers/function_calling_helpers.py:213-214 | no name or value brings a separator, question mark or fragment sign into the query |
| VarMarkers.FailsIff | voiceai/helpers/function_calling_helpers.py:129-163 | filling raises exactly when some marker, however deep, names a list or a dict, whatever the values are |
| VarMarkers.ContainsIff | voiceai/helpers/function_calling_helpers.py:110-126 | the guard sees a marker key in any nested dict and nothing else |
| VarMarkers.GuardIsSound | voiceai/helpers/function_calling_helpers.py:166-172 | an object the guard turns away asks for no name and would not be changed by filling |
| VarMarkers.UnboundStays | voiceai/helpers/function_calling_helpers.py:147-157 | markers without a value stay as they are |
| VarMarkers.FillsInPlace | voiceai/helpers/function_calling_helpers.py:129-163 | a bound marker gives way to its value as it is; lists keep their length, dicts their keys, and every member is filled on its own |
| VarMarkers.NamesAfter | voiceai/helpers/function_calling_helpers.py:129-163 | what a filled object still asks for is what it asked for, each bound name giving way to what its value asks for |
| VarMarkers.TwoRoundsAreOne | voiceai/helpers/function_calling_helpers.py:129-163 | filling in two rounds is filling once from the combined values |

## Left out

- Sockets, HTTP, MongoDB, Redis, provider SDKs and audio codecs: I/O and libraries. The MongoDB repository keeps the same contract with a sorted listing order and is not modelled separately.
- Rows that do not validate against their model type, and `raw_documents`: the modelled writers store valid rows only.
- Page counts use exact division; the source divides floats, which agrees below 2^53 rows.
- ResponsesChain: the server's own truncation and compaction of a context, and reasoning items, are not modelled; a reply row is taken to convert to the server's output, as the protocol assumes.
- ResponsesChain.ChainingMeansFullHistory: a history edit goes together with an invalidated chain; what a silent edit does is `SilentEditFaithfulIff`. A request that continues a response nobody read to its end is marked out of step; what it means is `AbandonedFaithfulIff`.
- Row dictionaries are values, so aliasing between a history and its callers' dicts is not modelled; `_interim` is copied by value.
- Other history editors (`replace_last_user`, `pop_and_merge_user`, welcome and system prompt updates) touch one row's content or append one row.
- Tool-call entries that are not dictionaries, and non-string contents, do not occur in the model.
- Character classes are ASCII: `\w`, `\s`, `strip` and `lower` over other Unicode characters are not modelled.
- ContentStream.StreamContent: synthesis is on; the `answer` accumulator, pre-call messages and the rescue of a captured call are left out, as the yielded text does not depend on them.
- Heard-text bookkeeping, chunk-mark export and rounded summaries of the mark tracker: reporting only.
- Detector: audio durations arrive rounded; the audio feed queue and health counters are not modelled.
- Soniox: error frames end the connection before any token is read; the per-segment callback is not modelled.
- Reconnect: the sender and receiver loops appear only as reports of a dead socket.
- PendingDials: the lock is not modelled; each operation is one atomic step under it.
- HedgedJudge: the length of the hedge delay, and prompts, parsing and usage tallies of the judge.
- QueryUrl: string conversion of parameter values to UTF-8 octets, and the legacy `%`-template of request bodies.
- The rest of the repository: the voice session loop, FastAPI wiring, container providers, configuration and prompts.
