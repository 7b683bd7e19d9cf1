# Hermes bridge: verified model

This project models, in Dafny, the protocols the Hermes bridge runs between an unreliable relay, a
gateway that restarts, and a phone, and proves what they keep. Each source file or component has its
own module. A class carries the fields its source object updates in place; its methods, with the
source's loops, are proved against functions on values, and the theorems are about those functions
and about whole runs of them.

| files | what they model |
|---|---|
| `Crypto.dfy`, `InboundQueue.dfy`, `DurableReplay.dfy` | the durable inbound queue: a reader ahead of a serial worker, the per-connection mark, the cursor on disk and the nonce cache; then whole runs with a relay, disconnects, failures, restarts and pruning |
| `Utf16.dfy`, `StreamDelta.dfy`, `StreamedReply.dfy` | a streamed reply: deltas in UTF-16 units, revisions reserved before I/O, coalescing flush task, finalize, durable fallback; then a lossy link to a phone that can reload a snapshot |
| `LocalOwner.dfy`, `OwnerRuns.dfy` | submitting a turn to the local owner at most once, and the bounded task table over whole lifetimes |
| `SessionContinue.dfy` | the three functions that map phone ids, gateway threads and stored rows |
| `RoomLog.dfy`, `Mentions.dfy`, `Recipients.dfy` | room log paging, the mention scanner and printer, resolving recipients |
| `BotActivity.dfy`, `BotNotify.dfy`, `CompletionRuns.dfy` | the completed-turns snapshot and the completion observer over any number of ticks |
| `RpcDedup.dfy` | the sliding-window table of RPC ids |
| `LocalApi.dfy` | probing the gateway's own REST API |
| `MemoryFile.dfy`, `TailCap.dfy` | memory files, the UTF-8 tail bound |
| `Reading.dfy`, `History.dfy` | texts joined by blank lines; history projection and raw-offset paging |
| `PyText.dfy`, `Wrappers.dfy` | `str.strip` and the optional value |

Assumptions about what lies outside: on a connection the relay offers stored numbers above `since`, first
offers in increasing order and skipping nothing it still stores, repeats allowed; one consumer edits a
stream at a time; handing a frame to the socket is atomic with recording it; the room log answers in number
order; the history store pages by raw rows. Clocks are integers and are only assumed monotone where a
theorem says so. The network, the relay, other local services, the hash, `casefold` and the text patterns
are parameters about which nothing else is assumed.

## Where the code falls short of what it says or is for

- `hermes_bridge/adapter.py:1854-1863` says a dispatch that raises is replayed after the reconnect and never
  skipped. The replay is rejected by the nonce cache and the cursor passes the message
  (`DurableReplay.FailedDispatchIsSkipped`); `DurableReplay.RedeliveredIff` says exactly when a replay opens.
- `hermes_bridge/bot_rooms.py:410-441` reads at most 32 rounds while the default limit is 50: above 32 an older
  page can skip messages for good (`RoomLog.OlderPageSkipsBeyond32`); up to 32 it never does
  (`RoomLog.OlderPageIsWhole`), and `RoomLog.OlderPageLacks` says exactly what is missing.
- `hermes_bridge/session_continue.py:227-236` looks history up by thread without regard to who owns the row: a
  laptop-owned bridge row before a chat of the same thread takes the chat's history
  (`SessionContinue.LaptopRowExample`, exact in `SessionContinue.HistoryFindsStoredIdIff`).
- `hermes_bridge/bot_notify.py:29-31` joins bot name and cursor with a separator the name may contain
  (`CompletionRuns.EventIdsClashIff`); and a snapshot that reaches back past an earlier one shows turns that
  are never announced (`CompletionRuns.ReachingBackIsNotEmitted`).
- `hermes_bridge/bot_notify.py:46-47` tells what is new past a marked turn that scrolled off by time alone: a later turn
  completed in the same millisecond is not new, and so never announced (`BotNotify.NewIsExact`).
- `hermes_bridge/bot_notify.py:114-115` promises no historical alerts; a baseline taken while a bot's chat could not
  be read announces its history at the next tick (`CompletionRuns.EmptyBaselineAnnounces` says exactly which turns).
- `hermes_bridge/operation_dispatch.py:169-182` prunes after the lookup, so silence does not age the table
  (`RpcDedup.DuplicateIff`).
- `hermes_bridge/local_api.py:542-543` says a missing session is reported on a dashboard's 404; an api_server's
  404 alone does it too (`LocalApis.ApiServer404ReadsAsMissing`, exact in `LocalApis.DiscoversMissingIff`).
- `hermes_bridge/adapter.py:3505-3506` writes entries back without regard to one that ends in the separator's own
  first two characters (`MemoryFiles.DeleteBreaksOthers`, exact in `MemoryFiles.DeleteReadsBackIff`).

## Model

| member | source | states |
|---|---|---|
| Crypto.NonceCache.OpenFrame | hermes_bridge/crypto.py:74-147 | A frame is accepted exactly when it opens, has a timestamp at most 60 s away (or staleness is allowed) and its nonce is not cached; only an acceptance changes the cache, which is always the newest 256 of the whole acceptance history |
| Crypto.RememberedIff | hermes_bridge/crypto.py:32-33 | A nonce is still cached if and only if fewer than 256 acceptances followed its last one |
| Crypto.AcceptKeepsSpread | hermes_bridge/crypto.py:133-147 | Accepting an uncached nonce keeps equal nonces more than 256 entries apart |
| Crypto.NoNonceTwice | hermes_bridge/crypto.py:133-147 | Over any sequence of openings, with any clocks and staleness allowances, no nonce is accepted twice within 257 consecutive acceptances |
| Crypto.ReplayRefusedIff | hermes_bridge/crypto.py:133-147 | A replay of an accepted frame that would otherwise pass is accepted if and only if more than 256 acceptances lie at or after the original |
| InboundQueue.Adapter.constructor | hermes_bridge/adapter.py:444-457 | A new process starts from the cursor read back from disk, with an empty nonce history |
| InboundQueue.Adapter.ConnectWs | hermes_bridge/adapter.py:695-723 | A connection opens the replay window, notes the time, and offers the in-memory cursor as `since`; a failed connect changes nothing |
| InboundQueue.Adapter.ReplayWindowOpen | hermes_bridge/adapter.py:1724-1738 | The window is open until the marker or 30 s after connecting, and once seen shut it stays shut |
| InboundQueue.Adapter.ReadFrame | hermes_bridge/adapter.py:1740-1852 | One frame is skipped exactly if its number was seen, rejected exactly if it does not open, detached exactly if it opens as an rpc.request, and otherwise queued last under its number; nothing else of the queue, worker or cursor changes |
| InboundQueue.Adapter.BacklogDone | hermes_bridge/adapter.py:1772-1777 | The end-of-backlog marker shuts the window and touches nothing else |
| InboundQueue.Adapter.TakeNext | hermes_bridge/adapter.py:1871-1875 | The worker takes the oldest queued item |
| InboundQueue.Adapter.FinishDispatch | hermes_bridge/adapter.py:1876-1898 | A dispatch that returns moves the cursor onto its number and persists it (or fails to); one that raises stops the worker and leaves the cursor |
| InboundQueue.Adapter.DrainAndLeave | hermes_bridge/adapter.py:1672-1722 | Leaving a connection dispatches what is still queued, unless a dispatch raised; then the per-connection mark is reset before the supervisor reconnects |
| DurableReplay.StepKeepsInv | hermes_bridge/adapter.py:1672-1898 | Every step of relay, reader, worker, supervisor, restart and pruning keeps the invariant that relates cursor, mark, queue, store and nonce history |
| DurableReplay.RunKeepsInv | hermes_bridge/adapter.py:725-757 | Every run in which the relay honours its contract keeps that invariant |
| DurableReplay.RunKeepsAnswered | hermes_bridge/adapter.py:1786-1898 | On every connection of every run each offer is answered, in hand, or beyond a cursor that a failure stopped, and nothing stored below the mark was left out |
| DurableReplay.Disposition | hermes_bridge/adapter.py:1786-1898 | Over every run, failures, restarts and pruning included: each number offered on a connection that the cursor covers was dispatched, rejected by `open_frame` or detached on that connection; any other number it covers was settled or pruned; dispatches on a connection go strictly up from its `since` |
| DurableReplay.CursorNeverDecreases | hermes_bridge/adapter.py:1876-1898 | Within one process the cursor never moves back |
| DurableReplay.FrozenAfterFailure | hermes_bridge/adapter.py:1854-1898 | Once a dispatch has raised, nothing more is dispatched and the cursor stands still until the next connection |
| DurableReplay.ExactlyOnce | hermes_bridge/adapter.py:1672-1722 | In every run without a raising dispatch, over any number of reconnects, no accepted number is queued twice, dispatch follows reading order, and at every reconnect all accepted numbers are dispatched and covered by the cursor |
| DurableReplay.NeverReoffered | hermes_bridge/adapter.py:1786-1819 | In such runs a repeated offer of a queued number is turned away by the reader before it can reach the nonce cache |
| DurableReplay.OnlyReceivedWaits | hermes_bridge/adapter.py:1786-1852 | In every run whatever is queued or being dispatched is a frame that was received, under the number it came with, and never an rpc.request |
| DurableReplay.OpenedFrameWaits | hermes_bridge/adapter.py:1838-1852 | Against any relay, any other frame that opens is last in the queue afterwards, and an rpc.request leaves the queue as it was |
| DurableReplay.DrainIsDispatches | hermes_bridge/adapter.py:1864-1898 | Draining a queue is the run that takes and finishes its items one by one, up to the first that raises |
| DurableReplay.RestartSkipsNothing | hermes_bridge/adapter.py:444-466 | A restart at any moment of any run, failures included, brings back what is in hand, what was offered on the connection and not answered, and what was never settled: it lies beyond the new `since`, the relay still stores it if it did, no mark turns it away, and it opens unless it is too old |
| DurableReplay.RestartSkipsNoAccepted | hermes_bridge/adapter.py:444-466 | In runs without a raising dispatch every accepted but undispatched number is in hand and comes back after a restart |
| DurableReplay.ComesBackIff | hermes_bridge/adapter.py:444-466 | A number comes back after a restart if and only if it lies beyond the cursor on disk |
| DurableReplay.RedeliveredIff | hermes_bridge/crypto.py:133-147 | A message this process opened before opens again on a later connection if and only if more than 256 acceptances lie at or after it |
| DurableReplay.FailedDispatchIsSkipped | hermes_bridge/adapter.py:1854-1863 | A run in which a raising dispatch is never redelivered, the cursor passes it, and a restart does not bring it back, contrary to the docstring |
| DurableReplay.WindowStaysShut | hermes_bridge/adapter.py:1724-1738 | A shut replay window stays shut until the next connect |
| DurableReplay.StaleOnlyWhileOpen | hermes_bridge/adapter.py:1826-1833 | Against any relay and any clock, a frame older than 60 s opens only if numbered and read before the window first closed, within 30 s of connecting |
| Utf16.EncodeConcat | hermes_bridge/adapter.py:1155-1182 | UTF-16 units of joined texts are the joined units |
| Utf16.RoundTrip | hermes_bridge/adapter.py:1155-1182 | Decoding UTF-16 units gives the text back, so equal units mean equal text |
| Utf16.PrefixCutIsClean | hermes_bridge/adapter.py:1155-1182 | A cut after whole characters never falls inside a surrogate pair |
| StreamDelta.DeltaIsExact | hermes_bridge/adapter.py:1155-1182 | Keeping `keep` units of the previous text and appending gives exactly the new text, and `keep` is never inside a surrogate pair |
| StreamDelta.DeltaIsShortest | hermes_bridge/adapter.py:1155-1182 | No delta between the two texts keeps more whole characters or appends less |
| StreamDelta.StepKeepsInv | hermes_bridge/adapter.py:1008-1225 | Every edit, await return, flush wake, flush return, cancellation, socket loss and clearing keeps the stream invariant |
| StreamDelta.RunKeepsInv | hermes_bridge/adapter.py:1008-1225 | Every interleaving of those steps keeps it |
| StreamDelta.FramesOfAStream | hermes_bridge/adapter.py:1087-1134 | In every interleaving delta revisions are gapless from 0, no delta is made after the final frame, and at most one enqueue is ever attempted, of that final frame with the full text; the inbox holds it or nothing |
| StreamDelta.FinalizePersistsIff | hermes_bridge/adapter.py:1087-1103 | A finalize leaves exactly its own full text in the durable inbox if and only if its frame seals, the socket does not break on it, and the enqueue lands; otherwise it leaves nothing |
| StreamDelta.FailedEditPersistsIff | hermes_bridge/adapter.py:1104-1134 | A live edit that fails while pending ends the stream with a final frame of the text it failed to show; that text is in the durable inbox if and only if the frame seals, the socket does not break on it, and the enqueue lands |
| StreamDelta.EndsIff | hermes_bridge/adapter.py:1087-1134 | Over every run: a final frame is made if and only if a finalize or a failed edit came while the stream was pending; it stays pending exactly if none of these came and no connection was lost |
| StreamDelta.EditsGoOn | hermes_bridge/adapter.py:1099-1105 | So with live edits that succeed and no finalize or lost socket the stream goes on, and no final frame is made |
| StreamDelta.OverIsForgotten | hermes_bridge/adapter.py:1144-1153 | However a stream ended, every entry of it is gone; a lost connection ends it |
| StreamDelta.LateEditsAreRevisions | hermes_bridge/adapter.py:1038-1059 | Over every run each edit or finalize that comes after the end is the next revision, and touches nothing else |
| StreamDelta.FailedFlushIsRetried | hermes_bridge/adapter.py:1203-1211 | After a flush that failed the next live edit is sent at once, inside the interval or not |
| StreamDelta.Coalescing | hermes_bridge/adapter.py:1061-1092 | A text is stashed exactly while one flush task sleeps; when due it records the latest text; no finished or cancelled task removes a newer one |
| StreamDelta.EditsAreSpaced | hermes_bridge/adapter.py:1068-1080 | Successive recorded edits are 800 ms apart unless the socket was down or the previous flush had failed |
| StreamDelta.WaitsInside800 | hermes_bridge/adapter.py:1068-1098 | A live edit waits exactly if the socket is up, no flush has just failed and the last recorded edit is under 800 ms old; otherwise it is recorded and sent at once |
| StreamDelta.HistoryGrows | hermes_bridge/adapter.py:1184-1187 | Recorded revisions are never rewritten, and after the end nothing changes |
| StreamDelta.JointKeepsInSync | hermes_bridge/adapter.py:1217-1225 | Delivery, loss, reordering and snapshot reloads keep gateway and phone in agreement |
| StreamDelta.PhoneConverges | hermes_bridge/adapter.py:1217-1225 | Whatever frames are lost, repeated or reordered, the preview included, a phone that starts with nothing holds at revision k exactly the text recorded at revision k, and a committed reply is the full text |
| StreamDelta.ReloadCatchesUp | hermes_bridge/adapter.py:1217-1225 | One snapshot reload of a pending stream brings the phone to the newest revision |
| StreamDelta.NextFrameApplies | hermes_bridge/adapter.py:1155-1182 | A phone that has what came before needs no reload: the preview, and then the next delta, takes it to the next revision |
| StreamedReplies.StreamedReply.constructor | hermes_bridge/adapter.py:989-996 | A delivered preview starts the stream: recorded as revision 0, and pending |
| StreamedReplies.StreamedReply.StreamEditPayload | hermes_bridge/adapter.py:1155-1182 | The loop finds the longest common prefix and builds the frame the delta specification gives |
| StreamedReplies.StreamedReply.RecordStreamEdit | hermes_bridge/adapter.py:1184-1187 | Recording sets text, revision and time and nothing else |
| StreamedReplies.StreamedReply.MakeDelta | hermes_bridge/adapter.py:1087-1098 | The revision is recorded before the frame is handed over |
| StreamedReplies.StreamedReply.CancelRegisteredFlush | hermes_bridge/adapter.py:1061-1066 | The registered flush task, and only it, is cancelled and unregistered |
| StreamedReplies.StreamedReply.ClearStreamEdit | hermes_bridge/adapter.py:1144-1153 | Clearing cancels the flush and forgets every entry of the stream |
| StreamedReplies.StreamedReply.EditMessage | hermes_bridge/adapter.py:1008-1134 | An edit or finalize does what one step of the protocol says, up to its first await; on a reply that is over it is the next revision, under a message id of its own |
| StreamedReplies.StreamedReply.EditLive | hermes_bridge/adapter.py:1067-1098 | A live edit is stashed inside the interval and sent otherwise |
| StreamedReplies.StreamedReply.SendFinal | hermes_bridge/adapter.py:1061-1066 | A finalize cancels the flush and drops the stash before it hands over the full text |
| StreamedReplies.StreamedReply.StashAndSchedule | hermes_bridge/adapter.py:1073-1081 | A stash replaces the older one and schedules at most one flush |
| StreamedReplies.StreamedReply.SendLive | hermes_bridge/adapter.py:1082-1098 | A live send supersedes stash and flush |
| StreamedReplies.StreamedReply.EditResumes | hermes_bridge/adapter.py:1099-1134 | After its await the call ends the stream, falls back durably, or goes idle; a live edit that succeeded changes nothing but that the call is over |
| StreamedReplies.StreamedReply.EndStream | hermes_bridge/adapter.py:1094-1104 | A delivered finalize, successful or not, clears the stream |
| StreamedReplies.StreamedReply.PostDurably | hermes_bridge/adapter.py:842-872 | A sealed frame is enqueued unless the socket broke while taking it, the enqueue may fail to land, and the delivery succeeded when the frame went out live or landed |
| StreamedReplies.StreamedReply.FallBack | hermes_bridge/adapter.py:1118-1134 | The fallback clears the stream and sends the text as a final frame under the same revision |
| StreamedReplies.StreamedReply.FlushWakes | hermes_bridge/adapter.py:1189-1202 | A woken flush takes the stash and records it, or ends when the stream is gone |
| StreamedReplies.StreamedReply.FlushResumes | hermes_bridge/adapter.py:1203-1211 | A failed flush makes the next edit immediate |
| StreamedReplies.StreamedReply.LeaveFlush | hermes_bridge/adapter.py:1212-1215 | A flush task unregisters itself and never another |
| StreamedReplies.StreamedReply.SupervisorClears | hermes_bridge/adapter.py:747-753 | A lost connection ends and clears a pending stream, and makes no frame |
| StreamedReplies.StreamedReply.StreamSnapshot | hermes_bridge/adapter.py:1217-1225 | The snapshot is the recorded text and revision of a pending stream, and refused otherwise |
| StreamedReplies.LongestPrefixIsUnique | hermes_bridge/adapter.py:1155-1166 | The common prefix the loop stops at is the only one that is both common and not extendable |
| LocalOwner.Submit | hermes_bridge/local_owner.py:65-78 | A refusal is reported only for a reason known to precede commitment, an admission only for a receipt with id and known status; all else is unconfirmed |
| LocalOwner.RunLocalOwner | hermes_bridge/adapter.py:2353-2396 | An attempt ends True exactly when it was admitted and delivered a reply, saved with a terminal admission or heard as a completion with a text before anything else about the turn; it ends False exactly when unattached or refused; and None otherwise |
| LocalOwner.ReplyOutcomeIff | hermes_bridge/adapter.py:2366-2391 | Awaiting a reply ends True if and only if it came and was delivered, so a disconnect, a timeout or a textless completion leaves the attempt uncertain |
| LocalOwner.AdmitsIff | hermes_bridge/adapter.py:2321-2340 | A message is taken up if and only if every entry of its id ended False |
| LocalOwner.OwnerTable.EvictFinished | hermes_bridge/adapter.py:2341-2347 | Eviction removes delivered entries, oldest first, until there is room for one |
| LocalOwner.OwnerTable.ForwardLocalOwned | hermes_bridge/adapter.py:2321-2352 | A message starts a task exactly when its id has none or one that ended False; then eviction makes room and the task is last |
| OwnerRuns.SweepKeepsLasting | hermes_bridge/adapter.py:2341-2347 | Eviction never removes an entry that is not delivered, nor reorders them |
| OwnerRuns.SweepDropsOldest | hermes_bridge/adapter.py:2341-2347 | Eviction drops the oldest delivered entries and no more than makes room |
| OwnerRuns.SweepLookup | hermes_bridge/adapter.py:2341-2347 | For each id eviction keeps the task, unless it was a delivered one |
| OwnerRuns.ForwardLookup | hermes_bridge/adapter.py:2321-2352 | Forwarding changes the task of its own id, and of others only by evicting delivered ones |
| OwnerRuns.AtMostOnce | hermes_bridge/adapter.py:2321-2396 | Over any interleaving an id is submitted at most once more than it was refused or evicted, and commits at most once more than its delivered entry was evicted, with an owner that never deduplicates |
| OwnerRuns.OneDeliveryEach | hermes_bridge/adapter.py:2321-2396 | Over any interleaving, entries that ended True, evicted ones included, are one for one the replies that came and were delivered; so a turn commits at most once more than its reply was delivered |
| OwnerRuns.AttemptEnds | hermes_bridge/adapter.py:2353-2396 | The events of one attempt leave in the table the task the attempt returns |
| OwnerRuns.UncertainIsForever | hermes_bridge/adapter.py:2321-2396 | An uncertain, raising or cancelled attempt is never evicted, replaced or submitted again |
| OwnerRuns.ForwardBounds | hermes_bridge/adapter.py:2341-2347 | Admitting a message leaves at most 512 entries, unless not one of them can be evicted |
| OwnerRuns.TableBound | hermes_bridge/adapter.py:2341-2347 | At every moment of every run the table is as large as the last admitted message left it: at most 512 entries, unless not one of them could then be evicted |
| SessionContinue.DropRepeats | hermes_bridge/session_continue.py:239-283 | The second loop lists only the first row of each id |
| SessionContinue.RewriteListedSessions | hermes_bridge/session_continue.py:239-283 | The listing is the first presented row of each id, in order |
| SessionContinue.PresentShows | hermes_bridge/session_continue.py:239-276 | Every field of a presented row: a laptop row has source local and loses its own `cont_` thread, a legacy fork names its origin and is titled after it, a bridge chat has its thread for an id; only placeholders of continuations are not presented |
| SessionContinue.ListingIsExact | hermes_bridge/session_continue.py:239-283 | For any rows: the list comes from increasing positions, every field as above, and a row is listed if and only if it is no placeholder and no presented row before it has its id |
| SessionContinue.ListedUnder | hermes_bridge/session_continue.py:239-283 | A bridge chat is listed under its thread, every other row under its own id |
| SessionContinue.SendRoutesToOwnThread | hermes_bridge/session_continue.py:189-224 | Sending to a listed id routes to that row's own thread if and only if the row is not a bridge chat whose thread carries the laptop prefix |
| SessionContinue.NewChatKeepsItsId | hermes_bridge/session_continue.py:189-236 | For any rows: an id that no row and no bridge thread has is sent to, and its history sought, under itself, unless it is blank or looks like a laptop id |
| SessionContinue.UnroutedIff | hermes_bridge/session_continue.py:189-224 | For any rows: a send goes into the shared legacy session if and only if its id is blank, laptop-owned, or no foreign id and that of a bare row which is the first bridge row about it |
| SessionContinue.RoutedTo | hermes_bridge/session_continue.py:211-224 | For any rows: any other send goes to the `cont_` thread of a foreign id, to the trimmed thread of the first bridge row about it if that is its own, and else to the id itself |
| SessionContinue.HistorySought | hermes_bridge/session_continue.py:227-236 | For any rows: history is sought under the id itself if a row has it or no bridge row stores it, and else under the id of the first bridge row that does |
| SessionContinue.HistoryFindsStoredIdIff | hermes_bridge/session_continue.py:227-236 | History lookup of a listed id finds that row's stored id if and only if the row is not a chat, with an id other than its thread, that follows a laptop-owned bridge row of the same thread |
| SessionContinue.ListingAgrees | hermes_bridge/session_continue.py:182-283 | For every list of rows with unique non-empty ids and trimmed threads, no thread but a foreign id being another row's id: listed ids are unique, each comes from one stored row, and history and send find that row and its thread exactly under the conditions of the two rows above |
| SessionContinue.LaptopRowTakesHistory | hermes_bridge/session_continue.py:227-236 | A laptop-owned bridge row before a chat of the same thread takes the chat's history |
| SessionContinue.LaptopRowExample | hermes_bridge/session_continue.py:227-236 | Two such rows: the chat `s1` is listed as `t` and its history is sought under `local-1` |
| SessionContinue.LaptopLikeChatIsUnrouted | hermes_bridge/session_continue.py:189-224 | A chat whose thread starts with the laptop prefix is listed under it and refused it |
| SessionContinue.EveryShownRowIsListed | hermes_bridge/session_continue.py:239-283 | Every presented row's id is listed |
| SessionContinue.FirstsUnique | hermes_bridge/session_continue.py:239-283 | No id is listed twice and no row is invented |
| SessionContinue.FirstsCover | hermes_bridge/session_continue.py:239-283 | No presented id is lost |
| SessionContinue.ContinuationNeverCollides | hermes_bridge/session_continue.py:92-98 | A continuation thread never equals the thread of a listed bridge chat |
| SessionContinue.StampUndoesContinuation | hermes_bridge/session_continue.py:108-114 | Replies carry the session the map has for their thread; after a restart those to a continued session carry the foreign id the phone sent to, and a chat's the id it is listed under |
| SessionContinue.StampIsExact | hermes_bridge/session_continue.py:101-114 | Any thread is stamped with the session the map has for it, else the id its `cont_` thread was made of, else itself |
| SessionContinue.SwitchOnlyForward | hermes_bridge/session_continue.py:133-169 | A continuation key is switched at most once and only forward along its lineage, and it stays if and only if it is right already or in the lineage with nothing newer to go to |
| RoomLog.FetchLatestPage | hermes_bridge/bot_rooms.py:381-407 | The loop terminates and returns what walking forward with a trim per step gives; more is left exactly if the oldest message returned is not number 1 |
| RoomLog.MessagesSplit | hermes_bridge/bot_rooms.py:355-378 | Adjacent log ranges join without overlap or loss |
| RoomLog.MessagesExact | hermes_bridge/bot_rooms.py:355-378 | A range holds every message of the log between its ends and nothing else |
| RoomLog.TrimOnceOrOften | hermes_bridge/bot_rooms.py:381-407 | Trimming at every step keeps what trimming once would |
| RoomLog.WalkKeepsTail | hermes_bridge/bot_rooms.py:381-407 | However the service cuts its pages, the walk holds the newest messages of the range walked |
| RoomLog.LatestPageIsTail | hermes_bridge/bot_rooms.py:381-407 | The latest page is the last `limit` messages from its start to its cursor, and to the latest number with a forthcoming service |
| RoomLog.FetchOlderPage | hermes_bridge/bot_rooms.py:410-441 | The rounds loop returns what collecting at most 32 pages gives, with the newest number they told |
| RoomLog.CollectAsks | hermes_bridge/bot_rooms.py:417-432 | What an older page collects is what the pages asked for hold of its window |
| RoomLog.AskingStops | hermes_bridge/bot_rooms.py:417-432 | At most 32 pages are asked for, and fewer exactly where one reaches the end of the window, has no more, or does not move on |
| RoomLog.LatestIsTold | hermes_bridge/bot_rooms.py:419-423 | The newest number reported is that of the last page that tells one |
| RoomLog.OlderPageIsWhole | hermes_bridge/bot_rooms.py:410-441 | With a limit of at most 32 an older page holds its whole window |
| RoomLog.OlderPageLacks | hermes_bridge/bot_rooms.py:410-441 | At any limit an older page lacks exactly the messages beyond the cursor it stopped at |
| RoomLog.ChainIsContiguous | hermes_bridge/bot_rooms.py:410-441 | The windows of chained older pages neither overlap nor skip a message |
| RoomLog.ReadBackIsChain | hermes_bridge/bot_rooms.py:410-441 | With a limit of at most 32 the pages really read, whatever byte budgets do to each, are those windows |
| RoomLog.ReadBackIsContiguous | hermes_bridge/bot_rooms.py:410-441 | So pages read back one after another neither overlap nor skip a message, down to the last window read |
| RoomLog.OlderPageSkipsBeyond32 | hermes_bridge/bot_rooms.py:410-441 | For every limit above 32 a contract-abiding service makes an older page skip the newest messages of its window |
| Mentions.MentionHandlesInText | hermes_bridge/bot_rooms.py:507-517 | The scan returns the handles mentioned, first spelling of each, in order |
| Mentions.MatchesAreExact | hermes_bridge/bot_rooms.py:507-517 | There is a mention at every `@` before a start character and nowhere else, each as long as it can be, in order |
| Mentions.DistinctIsExact | hermes_bridge/bot_rooms.py:507-517 | Of the handles exactly those whose folded spelling is new are kept, in order |
| Mentions.MatchesPrinted | hermes_bridge/bot_rooms.py:520-527 | Printed handles are read back whole and in order |
| Mentions.MatchesStrip | hermes_bridge/bot_rooms.py:520-527 | Stripping a text neither adds nor loses a mention |
| Mentions.DraftIsKept | hermes_bridge/bot_rooms.py:520-527 | What is printed is the draft unchanged, or the handles it does not mention yet and then the stripped draft |
| Mentions.ScanOfPrinted | hermes_bridge/bot_rooms.py:507-527 | Scanning the printed text gives exactly the missing handles, then the original mentions |
| Mentions.PrintedMentionsAll | hermes_bridge/bot_rooms.py:520-527 | The printed text mentions what the text did and every handle asked for, and nothing else |
| Mentions.PrintingIsIdempotent | hermes_bridge/bot_rooms.py:520-527 | Printing again changes nothing |
| Recipients.ResolveMemberToken | hermes_bridge/bot_rooms.py:539-556 | A token is resolved by display, id or handle key as the specification says |
| Recipients.ResolveIsExact | hermes_bridge/bot_rooms.py:530-556 | A token resolves if and only if it is not blank and all rows that answer are one member, then to the last of them; it is unknown exactly when blank or nobody answers |
| Recipients.LookupFindsMember | hermes_bridge/bot_rooms.py:559-565 | A lookup succeeds if and only if one listed member answers, is available and has a handle, and finds that member |
| Recipients.ResolveTokens | hermes_bridge/bot_rooms.py:581-617 | Tokens are looked up in order up to the first error |
| Recipients.ResolveSend | hermes_bridge/bot_rooms.py:581-617 | Recipients are resolved, printed and every resulting mention checked, with the source's errors in the source's order |
| Recipients.ResolveAllIff | hermes_bridge/bot_rooms.py:581-617 | A list of tokens fails exactly with the error of the first that fails |
| Recipients.SendsIff | hermes_bridge/bot_rooms.py:581-617 | A message goes out if and only if everyone it is meant for resolves and so does every unreserved mention of what would be sent |
| Recipients.SentTextKeepsDraft | hermes_bridge/bot_rooms.py:581-617 | What goes out is the draft, or handles of members it does not mention and then the stripped draft |
| Recipients.EveryMentionResolves | hermes_bridge/bot_rooms.py:581-617 | A text that goes out mentions only reserved or resolvable handles |
| Recipients.SentTextNamesMembers | hermes_bridge/bot_rooms.py:581-617 | For a room's members, every mention that goes out is reserved or names exactly one available member |
| Recipients.EveryRecipientMentioned | hermes_bridge/bot_rooms.py:581-617 | A text that goes out mentions every recipient on top of its own mentions |
| BotActivity.ProjectCompletedTurns | hermes_bridge/bot_activity.py:21-50 | The projection is the first completed row of each id, sorted by time and then id |
| BotActivity.CollectsFirsts | hermes_bridge/bot_activity.py:28-49 | A turn is collected if and only if it is the first completed row of its id |
| BotActivity.SnapshotIsExact | hermes_bridge/bot_activity.py:21-50 | The snapshot is strictly ascending, has every completed id once, and the time of its first completed row |
| BotActivity.ProjectsFirsts | hermes_bridge/bot_activity.py:28-50 | A turn is in the projection if and only if its row is a visible assistant message with id and text, and no such row before it has the id |
| BotActivity.SnapshotIsStretch | hermes_bridge/bot_activity.py:21-50 | Whatever order and repetition the rows of a stretch of the log come in, the snapshot is that stretch |
| BotNotify.Observer.BaselineMarkers | hermes_bridge/bot_notify.py:114-138 | Each named bot is marked at the last turn shown |
| BotNotify.Observer.DiscoverCompletions | hermes_bridge/bot_notify.py:141-188 | One tick emits the unseen turns past each marker, moves the markers and truncates the seen list to 200 |
| BotNotify.Observer.ObserveOnce | hermes_bridge/bot_notify.py:215-252 | A tick without opt-in emits nothing, one without a baseline only sets it, and any other stores its progress and emits what it discovered, or does neither when there is no key |
| BotNotify.Observer.SetPreference | hermes_bridge/bot_notify.py:196-212 | Opting in while off takes a fresh baseline; opting out, or in again, changes only the flag |
| CompletionRuns.EventIdInjective | hermes_bridge/bot_notify.py:29-31 | Event ids tell bots and cursors apart when no bot name contains the separator |
| CompletionRuns.EventIdsClashIff | hermes_bridge/bot_notify.py:29-31 | Two bots can share an event id if and only if one name is the other followed by the separator and more |
| CompletionRuns.NewerIsPastMarker | hermes_bridge/bot_notify.py:34-48 | What counts as new is exactly what lies past the marker, also after the marked turn scrolled off |
| BotNotify.NewIsExact | hermes_bridge/bot_notify.py:34-48 | For any turns: with nothing marked all are new; while the marked turn is shown, those behind it; and once it is not, those completed strictly later |
| CompletionRuns.TickEmits | hermes_bridge/bot_notify.py:141-188 | One tick emits the bot's turns past its marker, whatever other bots do and however much of the seen list is gone |
| CompletionRuns.RunEmits | hermes_bridge/bot_notify.py:141-188 | Any number of ticks emit exactly the expected pieces of the log |
| CompletionRuns.ExpectedIsOrdered | hermes_bridge/bot_notify.py:141-188 | Emitted turns are in completion order, each once |
| CompletionRuns.ExpectedExactly | hermes_bridge/bot_notify.py:141-188 | A turn is emitted if and only if some tick shows it that no earlier tick had looked past |
| CompletionRuns.CompletionsEmitted | hermes_bridge/bot_notify.py:141-188 | The three facts together, and with snapshots that only slide forward a turn is emitted exactly when any tick shows it |
| CompletionRuns.ReachingBackIsNotEmitted | hermes_bridge/bot_notify.py:34-48 | A snapshot that reaches back shows a turn that is never emitted |
| CompletionRuns.BaselineMarks | hermes_bridge/bot_notify.py:114-138 | The baseline marks the newest turn shown |
| CompletionRuns.BaselineTracks | hermes_bridge/bot_notify.py:114-138 | Opting in, for the first time or again, alerts for nothing a baseline shows |
| CompletionRuns.EmptyBaselineAnnounces | hermes_bridge/bot_notify.py:114-138 | After a baseline that could not read the bot's chat, the next tick that does announces exactly the turns it shows whose announcement is not still remembered, history included, and then tracks |
| CompletionRuns.FirstEmptyBaselineAnnouncesAll | hermes_bridge/bot_notify.py:114-138 | On a first opt-in that is everything shown |
| RpcDedup.OperationDispatcher.IsDuplicate | hermes_bridge/operation_dispatch.py:169-182 | An arrival is a duplicate exactly when the table of earlier arrivals holds its id; one without an id leaves no trace |
| RpcDedup.TableIsExact | hermes_bridge/operation_dispatch.py:169-182 | After every arrival the table holds exactly the ids last seen at most 30 s before it |
| RpcDedup.DuplicateIff | hermes_bridge/operation_dispatch.py:169-182 | An arrival is turned away if and only if its id last arrived at most 30 s before the preceding arrival, whosever that was |
| RpcDedup.RunsOnce | hermes_bridge/operation_dispatch.py:138-182 | An id retried at most 30 s apart runs its handler exactly once, however others interleave |
| LocalApis.Dedupe | hermes_bridge/local_api.py:173-180 | The loop keeps the first mention of each port |
| LocalApis.FirstMentionsAreDistinct | hermes_bridge/local_api.py:173-180 | Nothing lost and nothing twice |
| LocalApis.FirstMentionsKeepOrder | hermes_bridge/local_api.py:173-180 | What follows a list only adds at its end |
| LocalApis.ProbesOwnProfile | hermes_bridge/local_api.py:215-260 | No port is probed twice; another profile's port is probed if and only if the operator named it or it is the api_server's; this profile's always is |
| LocalApis.OverrideFirst | hermes_bridge/local_api.py:215-260 | The operator's port is probed first |
| LocalApis.KnownPortsFirst | hermes_bridge/local_api.py:215-260 | The operator's port, then the cached one if not foreign, then this profile's, and only then the usual ones |
| LocalApis.ApiServerLast | hermes_bridge/local_api.py:258-260 | The api_server's port is probed last unless it is a candidate already |
| LocalApis.LocalApi.DropPortCache | hermes_bridge/local_api.py:202-213 | The port and its token are forgotten, the cached port only if it is the same |
| LocalApis.LocalApi.FindPorts | hermes_bridge/local_api.py:215-260 | A cached port that proved foreign is dropped, and the candidates are those of the specification |
| LocalApis.LocalApi.Token | hermes_bridge/local_api.py:422-444 | Cached, else environment, else served page; what is found is kept |
| LocalApis.LocalApi.Turn | hermes_bridge/local_api.py:466-525 | One port's turn does what its specification says: at most two sends, both to that port |
| LocalApis.LocalApi.ProbePorts | hermes_bridge/local_api.py:466-525 | The loop makes the sends, state changes and remembered errors of the recursive specification |
| LocalApis.LocalApi.Conclude | hermes_bridge/local_api.py:527 | A request that did not settle raises the first dashboard 404, else the last failure |
| LocalApis.LocalApi.Request | hermes_bridge/local_api.py:446-527 | A request is the probe of its candidates, concluded |
| LocalApis.VisitIsTurn | hermes_bridge/local_api.py:466-525 | A second send follows only a 401 with another token; the port is pinned by a decisive answer and unpinned by a 404 or a dead connection; other ports' tokens are untouched |
| LocalApis.VisitTokens | hermes_bridge/local_api.py:466-525 | One port's turn carries the known token first, and repeats exactly after a 401 when another is then found; a refused token is never kept |
| LocalApis.RequestSends | hermes_bridge/local_api.py:446-527 | For every candidate list and answer pattern: at most two sends per port, the second only after a 401 with a different token; ports in order; nothing after a decisive answer, and every port tried without one |
| LocalApis.RequestTokens | hermes_bridge/local_api.py:422-525 | In a whole request every first send to a port carries its cached token, else the environment's or the page's of that moment; it is repeated if and only if it met a 401 and another token is found, which the repeat carries |
| LocalApis.RequestEnds | hermes_bridge/local_api.py:446-527 | It returns or raises the decisive answer; otherwise it raises the first non-api_server 404, if any, else the last failure |
| LocalApis.RequestPins | hermes_bridge/local_api.py:466-525 | The known-good port ends as the one that answered decisively, and is otherwise kept unless its own first try was a 404 or dead |
| LocalApis.LocalApi.AskKnownPort | hermes_bridge/local_api.py:559-589 | On the known port a 404 means missing and keeps the port; only a first send without an HTTP answer forgets it |
| LocalApis.LocalApi.ConcludeOrAskAgain | hermes_bridge/local_api.py:548-559 | A discovery concludes on success, 404 or when it pinned nothing, and is asked again on the pinned port otherwise |
| LocalApis.LocalApi.GetOnWorkingPort | hermes_bridge/local_api.py:532-589 | With a known port every send goes there; without one it discovers first |
| LocalApis.ApiServer404ReadsAsMissing | hermes_bridge/local_api.py:532-553 | When only the api_server answers, with 404, the session is reported missing although no dashboard spoke |
| LocalApis.DiscoversMissingIff | hermes_bridge/local_api.py:532-553 | A discovery reads as missing if and only if nothing decisive came and some dashboard said 404 first or the last send was a 404 |
| MemoryFiles.Find | hermes_bridge/adapter.py:472-478 | The separator is found at its first occurrence |
| MemoryFiles.SplitIsClean | hermes_bridge/adapter.py:472-478 | No piece of a split contains the separator |
| MemoryFiles.EntriesAreEntries | hermes_bridge/adapter.py:472-478 | Every entry read is non-empty, stripped and free of the separator |
| MemoryFiles.MemoryStore.Keep | hermes_bridge/adapter.py:3496-3502 | The loop keeps every entry but those with the id |
| MemoryFiles.MemoryStore.DeleteFrom | hermes_bridge/adapter.py:3491-3507 | A file is rewritten exactly when it holds the id |
| MemoryFiles.MemoryStore.Delete | hermes_bridge/adapter.py:3474-3508 | Only the first file that holds the id is rewritten; without one nothing is, and the entry is reported not found |
| MemoryFiles.ReadsBackIff | hermes_bridge/adapter.py:472-478 | Entries written and read again come back unchanged if and only if none but the last ends in a line start and the sign |
| MemoryFiles.DeleteReadsBackIff | hermes_bridge/adapter.py:3491-3507 | After a delete the file reads as the old entries minus the id, in order, if and only if no kept entry but the last ends so |
| MemoryFiles.DeletedIsGone | hermes_bridge/adapter.py:3491-3507 | Then the id is gone and every other entry is still there |
| MemoryFiles.SpacedSignReads | hermes_bridge/adapter.py:472-478 | A file can list an entry that ends in the sign before others |
| MemoryFiles.DeleteBreaksOthers | hermes_bridge/adapter.py:3491-3507 | For every such entry, deleting a later one changes it |
| History.ProjectRow | hermes_bridge/adapter.py:210-259 | A reply is shown with every field but its reasoning, which reads as what waited and then its own; a tool-call row leaves its reasoning; a user row shows the text of its kind; nothing else is shown or waits |
| History.RowIsShown | hermes_bridge/adapter.py:210-259 | What the three kinds of rows show and leave, field by field and without the functions that compute it |
| History.ProjectSessionMessages | hermes_bridge/adapter.py:206-260 | The loop's result is the fold over the rows |
| Reading.LettersReadable | hermes_bridge/adapter.py:254-257 | Joining any texts by blank lines and stripping loses and adds no visible character |
| Reading.PiecesReadable | hermes_bridge/adapter.py:254-257 | Single pieces so joined are cut by blank lines into themselves, whether the last text is empty or not |
| History.BubblesOfParts | hermes_bridge/adapter.py:206-260 | Cutting the raw rows anywhere cuts the shown rows, in order |
| History.PagesReachEnd | hermes_bridge/adapter.py:2508-2537 | Enough non-empty pages reach the end of the session |
| History.PagesShowSession | hermes_bridge/adapter.py:2508-2537 | Paging by raw offsets from either end, with any limits, shows every visible row walked over once and in order |
| History.ReasoningReachesNextReply | hermes_bridge/adapter.py:248-257 | Wherever a reply stands among raw rows, every other field of it is shown as stored; its reasoning is, letter for letter and cut at blank lines piece by piece, that of the tool-call rows since the previous reply and then its own; what follows is shown as if alone |
| History.ReasoningConserved | hermes_bridge/adapter.py:248-257 | For any rows, what the shown replies carry and then what the rows since the last reply hold is all the reasoning there is, in order: letter for letter, and piece by piece where texts are single pieces |
| History.CleanBoundary | hermes_bridge/adapter.py:2508-2537 | A page boundary with no reasoning left since the last reply is invisible |
| History.BoundaryCostsOneReply | hermes_bridge/adapter.py:2508-2537 | Any other boundary changes one field of one bubble: the first reply behind it lacks exactly the reasoning the page before left waiting |
| TailCap.RoundTrip | hermes_bridge/bot_subagents.py:40-45 | Decoding UTF-8 gives the encoded text back |
| TailCap.DropsOrphans | hermes_bridge/bot_subagents.py:40-45 | The ignoring decoder drops leading continuation bytes and nothing else |
| TailCap.CutAt | hermes_bridge/bot_subagents.py:40-45 | A cut at any byte leaves at most three orphans of the character before and then whole characters |
| TailCap.LongestSuffixKept | hermes_bridge/bot_subagents.py:40-45 | A text over 16384 bytes keeps the longest suffix of whole characters that fits, within three bytes of the limit |
| TailCap.CapSettles | hermes_bridge/bot_subagents.py:40-45 | The result fits, says whether anything was ever cut, and capping again changes nothing |

## Left out

- Authenticated encryption, base64, JSON and random ids: a frame opens or does not, and carries a nonce and a
  timestamp; sealing succeeds or fails.
- HTTP, websocket, file and process I/O: only their outcomes (sent, closed, broken, written, truncated, a status
  code, no answer).
- The relay's hello frame, the API key and the reconnect backoff: they change no modelled state.
- Stopping the adapter for good (`disconnect`): a run ends with a crash or goes on.
- Several streams at once: one `StreamedReply` object stands for one message id; the adapter's dictionaries by id
  are independent of each other in the modelled code.
- `edit_message` against a relay without edit support: it returns an error at once.
- `send` before a stream starts and the reply and session ids a frame carries: the model begins with a preview
  that was delivered. The 512-entry bounds of the maps that remember revisions and sessions by message id are not modelled.
- Exceptions while closing the owner's client, and the error frames sent to the phone for a refused turn.
- Rows that are not dictionaries and fields of the wrong type: rows are well typed, a missing text is empty.
- The handoff, out-of-band and skill patterns of user rows: parameters of `History.Texts`.
- How a message's text and time are read out of its fields (`_message_text`, `_message_ts_ms`): the row carries the
  results.
- `list.sort` itself: a sorting function, whose result is proved unique.
- `dict` order where it does not matter; where it does (the owner table, the dashboards found), a sequence.
- Parsing `HERMES_BRIDGE_API_PORT`: the override is an optional port.
- Starting and supervising the local backend (`_ensure`, `_supervise`) and `listening`.
- Line ending translation when memory files are read and written.
- Lone surrogates in text: Python refuses to encode them, so a tail is a sequence of scalar values and a streamed
  text a sequence of characters.
- The `_rpc_*` proxies for skills, cron, models, connectors, agents and usage, bot chats and their poll loop,
  pairing, capability descriptors, attachments and blobs.
