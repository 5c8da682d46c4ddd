# ANPR dashboard event pipeline — a Dafny model

This project models the event-ingestion pipeline of a live licence-plate
recognition (ANPR) dashboard and proves properties of that model.

- **`LogsSocket`** (`logs_socket.dfy`) is the `useLogsSocket` hook.
  - A WebSocket connection state machine: connecting, connected, error,
    stale, reconnecting, closed.
  - Exponential reconnect backoff with jitter, a heartbeat that closes a
    silent socket, and a manual-close flag raised by the clean-up.
  - An ingestion buffer filled by parsed and normalised messages.
  - A periodic flush. It drains the buffer into a batch summary, merges
    the batch newest-first and tagged with a batch token into the visible
    log (ten-minute window, at most 500 rows), and persists it to the
    durable store.
  - Token-guarded clean-ups for the flash tags and the batch banner, and
    hydration of the visible log from the store.
- **`LogStorage`** (`log_storage.dfy`) is the durable log store: an
  IndexedDB object store with in-line keys at `id`, a key generator, and an
  index on `ts_ms`. It models `normalizeLog` and the four store operations.
  They follow the key-generator and key-range rules of the W3C Indexed
  Database API 3.0 (sections 2.11 and 2.9).
- **`MetricsSeries`** (`metrics_series.dfy`) is the `EmitMetricsSeries`
  class: a fixed-length window of time buckets with four category
  counters. It has a cold-start backfill from history, a drop-oldest ingest
  and a copying read.
- **`UnifiedLogList`** (`unified_log_list.dfy`) covers the presentation
  filter of the unified log list:
  - category selection;
  - the WRONG_DIRECTION confidence gate;
  - at most two SPEEDING rows;
  - at most two rows per (type, track id, trimmed text) key.

  It also covers the offered categories, the category toggle and the
  relative-time label.
- **`StreamHealth`** (`stream_health.dfy`) is the stream-health panel's
  state history (newest first, at most six, no repeated neighbours), its
  trail and transition count, and its age label.
- **`RtspHealth`** (`rtsp_health.dfy`) is the lookup of one stream's health
  record in the RTSP health payload.
- **`Js`** (`js.dfy`) and **`Seqs`** (`seqs.dfy`) give the JavaScript
  value model the others share. They cover truthiness, `??`, optional
  property access, object spread, `Number(...)`, `String#trim`, and array
  slicing and reversing.

The system's clocks, `Math.random`, `JSON.parse` and the WebSocket are
outside the model. Their outcomes are parameters:
- `now` and `startNow` are the clock;
- `jitter` is the random jitter, in `[0, 400)`;
- `parsed` is the parse result, `None` when parsing throws;
- `constructionFails` says whether `new WebSocket(url)` throws;
- `socketOpen` is `readyState === OPEN`.

Each timer or socket event is a method call on the `LogsSocket` class.

## Model

| member | source | states |
|---|---|---|
| LogStorage.NormalizeLog | src/components/logStorage.js:25-30 | the copy keeps every other field of the record, and always has a numeric `ts_ms`: the record's own when it is a number, otherwise the current time |
| LogStorage.NormalizeLogIdempotent | src/components/logStorage.js:25-30 | normalising an already normalised record changes nothing, whatever the clock reads the second time |
| LogStorage.AddRecord | src/components/logStorage.js:12-15 | `add` of a record without `id` stores it with the generator's current number and advances the generator; a successful `add` only extends the store |
| LogStorage.AddRecordKeepsInv | src/components/logStorage.js:12-15 | a successful `add` keeps keys unique and below the generator, and never moves the generator back |
| LogStorage.StampedAt | src/components/logStorage.js:40 | the i-th record added by one append is input i normalised, with key `firstId + i` |
| LogStorage.AppendFreshIds | src/components/logStorage.js:32-46 | appending records that carry no `id` of their own adds each one normalised, in order, with consecutive fresh keys from the generator, and succeeds |
| LogStorage.AppendKeepsInv | src/components/logStorage.js:32-46 | every append (empty, failed or successful) keeps the store invariant, and the generator never goes back |
| LogStorage.QueueOnlyAdds | src/components/logStorage.js:40 | the queued adds keep the existing records as a prefix, and every new record is one of the inputs normalised, apart from its `id` |
| LogStorage.AppendAddsNoOtherField | src/components/logStorage.js:40 | an append adds no property other than `id` and `ts_ms` to any stored record |
| LogStorage.LogStore.constructor | src/components/logStorage.js:12-16 | a newly created object store is empty, with the generator at 1 |
| LogStorage.LogStore.AppendLogs | src/components/logStorage.js:32-46 | the loop of `add` requests leaves exactly the store, generator and outcome of the append specification, and keeps the invariant |
| LogStorage.InRangeMembers | src/components/logStorage.js:55 | a record is in the range exactly when it is stored and its `ts_ms` is at least the bound (inclusive lower bound) |
| LogStorage.SortByIndex | src/components/logStorage.js:56-67 | the index walk returns a permutation of the in-range records |
| LogStorage.SortByIndexInOrder | src/components/logStorage.js:54-56 | the index walk yields records in ascending `ts_ms` order, ties by ascending primary key |
| LogStorage.LogStore.GetLogsSince | src/components/logStorage.js:48-72 | the result is, as a multiset, exactly the stored records with `ts_ms` at least the bound, in index order |
| LogStorage.UnprunedMembers | src/components/logStorage.js:81-89 | a record survives pruning exactly when it is not indexed with `ts_ms` below the bound (open upper bound: `ts_ms` equal to the bound survives) |
| LogStorage.UnprunedAppend | src/components/logStorage.js:84-89 | pruning a concatenation prunes each part separately, in order |
| LogStorage.UnprunedKeysWithin | src/components/logStorage.js:84-89 | pruning keeps keys unique and only removes keys |
| LogStorage.UnprunedKeepsInv | src/components/logStorage.js:74-95 | pruning keeps the store invariant with the generator unchanged |
| LogStorage.LogStore.PruneOlderThan | src/components/logStorage.js:74-95 | the delete loop leaves exactly the surviving records, in their order, with the generator unchanged |
| LogStorage.LogStore.ClearPersistedLogs | src/components/logStorage.js:97-107 | the store is empty afterwards, and the generator is not reset |
| MetricsSeries.EmptyPoints | src/components/EmitMetricsSeries.js:9-17 | `maxPoints` points, all counts zero, timestamps rising by `bucketMs`, the last one `bucketMs` before now |
| MetricsSeries.EmptyPointsAt | src/components/EmitMetricsSeries.js:11 | bucket `idx` of the fresh series is at `now - (maxPoints - idx) * bucketMs` |
| MetricsSeries.DefaultWindow | src/components/EmitMetricsSeries.js:2-4 | with the default 24 buckets of 3000 ms, a fresh series runs from `now - 72000` to `now - 3000` |
| MetricsSeries.EmitMetricsSeries.constructor | src/components/EmitMetricsSeries.js:2-7 | the new tracker keeps its window parameters and holds the empty series |
| MetricsSeries.Bump | src/components/EmitMetricsSeries.js:35-46 | exactly the counter matching the log's type goes up by one; an unknown type changes nothing |
| MetricsSeries.BucketsTally | src/components/EmitMetricsSeries.js:23-49 | the bucket map built log by log holds, for every bucket, the independent tally of counted logs falling in it |
| MetricsSeries.Backfill | src/components/EmitMetricsSeries.js:51-67 | exactly `maxPoints` points; point `idx` is at `now - (maxPoints-1-idx)*bucketMs`, so the last one is at `now` |
| MetricsSeries.BackfillCounts | src/components/EmitMetricsSeries.js:51-67 | every point's counts are the tally of the counted logs in that point's bucket |
| MetricsSeries.BackfillNothingCounted | src/components/EmitMetricsSeries.js:21-25 | when no log is counted (falsy or NaN `ts_ms`, or before the window), every point is zero; in particular empty history backfills to zeros |
| MetricsSeries.BackfillIgnoresUncounted | src/components/EmitMetricsSeries.js:24-25 | a log with falsy `ts_ms` or one older than the window changes nothing in the backfill |
| MetricsSeries.CountedLogBumpsOne | src/components/EmitMetricsSeries.js:27-48 | a counted log bumps its own bucket by its type and leaves every other bucket alone |
| MetricsSeries.EmitMetricsSeries.InitializeFromLogs | src/components/EmitMetricsSeries.js:19-70 | the loop over the logs yields the backfill of `(logs, now)`, whatever the series held before (so calling it twice gives the same series), and returns it |
| MetricsSeries.PointOf | src/components/EmitMetricsSeries.js:73-79 | an ingested point takes its time from the sample, or `now` when there is none; a missing sample gives a zero point; each count is the sample's when given and 0 when missing |
| MetricsSeries.Shift | src/components/EmitMetricsSeries.js:81 | the length is kept, the new point is last, every other point moves one place left unchanged, and an empty series becomes the one new point |
| MetricsSeries.ShiftAllDropsOldest | src/components/EmitMetricsSeries.js:72-83 | ingesting `n <= length` points drops exactly the `n` oldest and appends the new ones in order |
| MetricsSeries.EmitMetricsSeries.Ingest | src/components/EmitMetricsSeries.js:72-83 | the series becomes the shifted series, and the returned copy equals it |
| MetricsSeries.EmitMetricsSeries.GetPoints | src/components/EmitMetricsSeries.js:85-87 | the copy has the series' length and equal points at every position |
| UnifiedLogList.ConfidencePercent | src/components/UnifiedLogList.jsx:34-38 | null exactly when the first present confidence field is missing or not a number; otherwise a value at most 1 is scaled by 100 and a larger one kept |
| UnifiedLogList.ConfidenceGate | src/components/UnifiedLogList.jsx:125-128 | a WRONG_DIRECTION row passes exactly when its raw confidence is a number in (0.25, 1] or above 25; values in (1, 25] fail |
| UnifiedLogList.KeyOf | src/components/UnifiedLogList.jsx:136-144 | a row has no dedup key exactly when its track id is falsy or its trimmed text is empty or `NULL` in any case |
| UnifiedLogList.FilteredLogs | src/components/UnifiedLogList.jsx:117-152 | the one-pass filter with its SPEEDING counter and per-key counter map returns exactly the declarative filtered list: nothing for an empty selection, otherwise each eligible row kept under its cap |
| UnifiedLogList.FilteredIsSubsequence | src/components/UnifiedLogList.jsx:123-124 | the result is an order-preserving subsequence of the log, and every kept row is selected (and passes the confidence gate) |
| UnifiedLogList.SpeedingCapped | src/components/UnifiedLogList.jsx:130-134 | the result holds as many SPEEDING rows as the log has eligible ones, capped at two |
| UnifiedLogList.KeyCapped | src/components/UnifiedLogList.jsx:144-150 | for every `type::track::text` key the result holds as many rows as the log has eligible ones, capped at two |
| UnifiedLogList.FilteredStep | src/components/UnifiedLogList.jsx:136-150 | one more row is kept exactly when it is eligible and under its cap, so the kept rows are the first ones; a keyless eligible non-SPEEDING row is always kept |
| UnifiedLogList.TruthyTypes | src/components/UnifiedLogList.jsx:109-111 | the collected types are exactly the truthy `type` values of the log |
| UnifiedLogList.TruthyTypesAppend | src/components/UnifiedLogList.jsx:109-111 | the types are collected in log order: collecting from `a + b` gives those of `a` followed by those of `b` |
| UnifiedLogList.TruthyTypesOne | src/components/UnifiedLogList.jsx:110 | one log contributes its `type` exactly when that is truthy |
| UnifiedLogList.FirstIndex | src/components/UnifiedLogList.jsx:112 | the first position at which a value occurs |
| UnifiedLogList.FirstIndexPrefix | src/components/UnifiedLogList.jsx:112 | appending does not move a value's first occurrence |
| UnifiedLogList.FirstIndexSuffix | src/components/UnifiedLogList.jsx:112 | a value absent from `a` first occurs in `a + b` at `|a|` plus its first index in `b` |
| UnifiedLogList.Distinct | src/components/UnifiedLogList.jsx:112 | the same members as the input, no duplicates |
| UnifiedLogList.DistinctFirstSeenOrder | src/components/UnifiedLogList.jsx:112 | `new Set` keeps insertion order: the values come in the order of their first occurrence |
| UnifiedLogList.AvailableTypesShape | src/components/UnifiedLogList.jsx:108-113 | the offered types start with the four known ones in order, hold no duplicates, and are exactly the known ones plus the truthy types of the log; after the fourth come only new types, in the order they first appear in the log |
| UnifiedLogList.ToggleType | src/components/UnifiedLogList.jsx:202-209 | the toggled type flips membership and every other type keeps it |
| UnifiedLogList.ToggleTwice | src/components/UnifiedLogList.jsx:202-209 | toggling twice restores the set of selected types, and restores the list exactly for a type that was not selected |
| UnifiedLogList.FormatRelativeMins | src/components/UnifiedLogList.jsx:27-32 | a dash exactly for a falsy timestamp; a minutes label exactly for a present timestamp that converts to a number; otherwise the whole minutes of `max(0, now - ts)`, never negative |
| UnifiedLogList.RelativeExamples | src/components/UnifiedLogList.jsx:27-32 | a future timestamp reads "0 min ago", one exactly a minute old "1 min ago" |
| StreamHealth.UpdateHistory | src/components/StreamHealthPanel.jsx:75-81 | an empty or repeated state leaves the history alone; otherwise the new entry heads it, followed by at most five earlier entries |
| StreamHealth.UpdateKeepsValid | src/components/StreamHealthPanel.jsx:77-80 | every update keeps the history at most six long with no equal neighbouring states |
| StreamHealth.ResetHistory | src/components/StreamHealthPanel.jsx:83-85 | a reset leaves a history with no transitions and a dash for a trail |
| StreamHealth.OldestFirst | src/components/StreamHealthPanel.jsx:89-92 | the states in reverse order |
| StreamHealth.TrailGrows | src/components/StreamHealthPanel.jsx:87-94 | below the cap, a state change extends the trail by the arrow and the new state |
| StreamHealth.TransitionCountCountsChanges | src/components/StreamHealthPanel.jsx:96 | on a history without repeated neighbours, the count equals the number of state changes it records |
| StreamHealth.EffectsAsWritten | src/components/StreamHealthPanel.jsx:74-85 | one commit as written: without a reset key change, the history is the state effect's update, or unchanged when the state did not change |
| StreamHealth.ResetDropsCurrentState | src/components/StreamHealthPanel.jsx:74-85 | the reset is queued after the state update, so on mount and on every reset key change the history ends empty and the trail reads a dash |
| StreamHealth.EffectsSeeded | src/components/StreamHealthPanel.jsx:74-85 | corrected commit: a reset leaves exactly the current state's entry (nothing for an empty state); after any effect run the current state heads the history, and a valid history stays valid |
| StreamHealth.EffectsAgreeWithoutReset | src/components/StreamHealthPanel.jsx:74-81 | without a reset key change the corrected commit and the commit as written are the same |
| StreamHealth.FormatAge | src/components/StreamHealthPanel.jsx:3-9 | a dash exactly for a non-number; below 60 the rounded seconds; otherwise the floor of `seconds / 60` as minutes, and the separately rounded remainder, which can reach 60 |
| StreamHealth.FormatAgeSixtySeconds | src/components/StreamHealthPanel.jsx:6-8 | 119.6 seconds reads "1m 60s" |
| StreamHealth.FormatAgeSixtySecondsBelowMinute | src/components/StreamHealthPanel.jsx:5 | 59.6 seconds reads "60s" |
| StreamHealth.FormatAgeRounded | src/components/StreamHealthPanel.jsx:3-9 | corrected label: the seconds part stays below 60 and minutes·60 + seconds is the rounded age |
| StreamHealth.FormatAgeAgrees | src/components/StreamHealthPanel.jsx:3-9 | wherever the label as written shows fewer than 60 seconds, the corrected one is the same |
| RtspHealth.GetStreamHealth | src/components/useRtspHealth.js:6-22 | null without a truthy camera entry; else the direct object, else the truthy `streams` entry, else the camera entry when it is an object, else null |
| RtspHealth.NullOrTruthy | src/components/useRtspHealth.js:6-22 | the result is null or truthy, and null exactly when there is no camera entry or it is neither an object nor holds the stream under `streams` |
| RtspHealth.DirectWins | src/components/useRtspHealth.js:13-15 | a direct object beats the `streams` entry |
| RtspHealth.NestedScalarReturned | src/components/useRtspHealth.js:17-19 | a non-object truthy `streams` entry is returned as it is |
| LogsSocket.Backoff | src/components/useLogsSocket.js:152 | the backoff lies between 1 s and 15 s |
| LogsSocket.BackoffShape | src/components/useLogsSocket.js:152 | `1000·2^attempt` for the first four attempts, 15000 from the fifth on, and monotone in the attempt |
| LogsSocket.DelayBound | src/components/useLogsSocket.js:152-154 | with jitter in `[0, 400)` the reconnect delay lies in `[1000, 15399]` |
| LogsSocket.CategoryTotalBounded | src/components/useLogsSocket.js:81-88 | the four category counts add up to at most the batch size |
| LogsSocket.TokenInjective | src/components/useLogsSocket.js:73 | batches flushed at different milliseconds get different tokens |
| LogsSocket.Summarize | src/components/useLogsSocket.js:90-98 | the summary's count is the batch size and each category count is the number of batch entries of that type |
| LogsSocket.DismissBanner | src/components/useLogsSocket.js:106-108 | the banner becomes null exactly when it shows this batch's token; otherwise it is kept |
| LogsSocket.FlashBatch | src/components/useLogsSocket.js:75-79 | the batch reversed, each row tagged with the one batch token |
| LogsSocket.StripFlash | src/components/useLogsSocket.js:110-118 | the length is kept, and each row gets the per-row clean-up |
| LogsSocket.StripFlashTouchesOnlyToken | src/components/useLogsSocket.js:112-116 | rows without this token are unchanged, rows with it lose only the tag, and a second clean-up changes nothing |
| LogsSocket.StripFlashUndoesTag | src/components/useLogsSocket.js:75-79 | stripping the tags off a flashed untagged batch gives back the batch, newest first |
| LogsSocket.RecentOnly | src/components/useLogsSocket.js:102 | exactly the rows whose `ts_ms` is at least the bound, never more rows than before |
| LogsSocket.RecentOnlyAppend | src/components/useLogsSocket.js:101-102 | filtering a concatenation filters each part in order |
| LogsSocket.Merge | src/components/useLogsSocket.js:100-104 | the visible log has at most 500 rows, all in the window, each from the batch or the previous log |
| LogsSocket.MergeSplits | src/components/useLogsSocket.js:100-104 | the merged log is the in-window flashed rows, then the in-window previous rows in their old order, cut to 500 |
| LogsSocket.FlashInWindow | src/components/useLogsSocket.js:76-79 | tagging a row does not move it in or out of the window |
| LogsSocket.MergeStartsWithBatch | src/components/useLogsSocket.js:73-104 | when the batch is in the window and fits, the merged log starts with the whole batch newest first, each row tagged |
| LogsSocket.PersistedUntagged | src/components/useLogsSocket.js:120-122 | the store receives the untagged batch, so no stored row carries the flash tag after append or prune |
| LogsSocket.LogsSocket.constructor | src/components/useLogsSocket.js:20-36 | mounting: empty log and buffer, hydrating, both intervals set, flag down, and the first connection attempted (or a reconnect scheduled when construction throws) |
| LogsSocket.LogsSocket.ScheduleReconnect | src/components/useLogsSocket.js:146-160 | with the manual-close flag nothing changes; otherwise the state is reconnecting, the attempt goes up by one and the timer holds the backoff plus jitter |
| LogsSocket.LogsSocket.ConnectSocket | src/components/useLogsSocket.js:162-176 | with the manual-close flag nothing changes; otherwise connecting with a live socket, or a scheduled reconnect when construction throws |
| LogsSocket.LogsSocket.ReconnectTimerFires | src/components/useLogsSocket.js:157-159 | the pending timer is consumed and a connection attempted; the attempt counter is not reset until the socket opens |
| LogsSocket.LogsSocket.OnOpen | src/components/useLogsSocket.js:178-181 | the attempt count is reset to 0 and the state is connected |
| LogsSocket.LogsSocket.OnMessage | src/components/useLogsSocket.js:183-196 | the message time is recorded either way; a parsed message appends exactly one normalised record and bumps the incoming count; a parse failure bumps only the dropped count |
| LogsSocket.LogsSocket.OnError | src/components/useLogsSocket.js:198-200 | the state is error |
| LogsSocket.LogsSocket.OnClose | src/components/useLogsSocket.js:202-209 | the socket reference is cleared; closed after a manual close, otherwise a reconnect is scheduled |
| LogsSocket.LogsSocket.HeartbeatTick | src/components/useLogsSocket.js:216-226 | stale and closing exactly when a socket is open, a non-zero last-message time exists and more than 15000 ms have passed; otherwise nothing changes |
| LogsSocket.LogsSocket.FlushBuffer | src/components/useLogsSocket.js:69-126 | the buffer is empty afterwards; an empty batch changes nothing; otherwise the summary, merged log, appended store and prune after a successful append, all from the same batch |
| LogsSocket.LogsSocket.FlushTick | src/components/useLogsSocket.js:212-214 | the flush interval runs one flush: an empty buffer changes nothing; otherwise the batch summary, the merged visible log, and the store holding the appended batch pruned to the ten-minute window |
| LogsSocket.LogsSocket.BannerTimeout | src/components/useLogsSocket.js:106-108 | the banner is dismissed only for its own token |
| LogsSocket.LogsSocket.FlashTimeout | src/components/useLogsSocket.js:110-118 | the visible log gets the token-guarded flash clean-up |
| LogsSocket.LogsSocket.Teardown | src/components/useLogsSocket.js:230-238 | flag raised first; the reconnect timer and the heartbeat and flush intervals cleared; a final flush (batch summary, visible log and store as in a flush); the socket asked to close and its reference cleared. The banner and flash timeouts of this and earlier flushes stay scheduled |
| LogsSocket.LogsSocket.RestartAsWritten | src/components/useLogsSocket.js:212-228 | after a clean-up, re-running the effect sets the intervals but attempts no connection |
| LogsSocket.LogsSocket.Restart | src/components/useLogsSocket.js:212-228 | with the flag lowered first, re-running the effect connects (or schedules a reconnect) |
| LogsSocket.LogsSocket.HydrateDone | src/components/useLogsSocket.js:50-61 | unless cancelled, the visible log becomes the newest 500 persisted rows of the window, newest first, and hydration ends |
| LogsSocket.LogsSocket.CancelHydrate | src/components/useLogsSocket.js:63-65 | the hydration result will be ignored |
| LogsSocket.LogsSocket.ClearView | src/components/useLogsSocket.js:38-40 | the visible log is empty |
| LogsSocket.LogsSocket.ClearCache | src/components/useLogsSocket.js:42-45 | the store and the visible log are empty, and the store's key generator is not reset |
| LogsSocket.EffectRerunAsWritten | src/components/useLogsSocket.js:202-239 | mount, clean-up and a re-run of the effect on the same hook as written: the hook never connects again; it reads connecting until the old socket's close event and closed after it |
| LogsSocket.EffectRerunRestarted | src/components/useLogsSocket.js:228-239 | with the flag lowered on re-run, the hook has a socket again |

## Left out

- JavaScript numbers are modelled as exact reals. NaN and the infinities cannot be represented; where the code produces NaN the model uses `None` (`Number(...)` of a non-numeric string, a zero `bucketMs`). Floating-point rounding is not modelled.
- `Number(...)` is modelled for null, booleans, numbers and decimal digit strings (after trimming). Other strings (signs, decimals, exponents, hex) are read as NaN. An array converts through its joined string: `[]` gives 0 and a single element converts as that element would. A single boolean or object element is read as NaN, and so are two or more elements.
- Property access sees own properties of objects plus string and array indices and `length`. Prototype properties are not modelled.
- UnifiedLogList.KeyOf: the dedup key is the triple (type, track id, trimmed text) rather than the `::`-joined string. Two different triples whose joined strings collide are therefore counted separately. Object-typed `type` values compare structurally, not by reference. The same holds for UnifiedLogList.Distinct (`new Set`), UnifiedLogList.ToggleType (`includes` and `!==`) and UnifiedLogList.Selected (`includes`).
- LogStorage.AddRecord: an explicit `id` that is not a number counts as an invalid key. String and array keys, which IndexedDB accepts, are not modelled. The key generator's 2^53 limit is not modelled.
- Storage failures not caused by the records (quota, a blocked or failed `openDb`, a failed read) are not modelled. `openDb` and the schema upgrade are reduced to the empty store of `LogStore.constructor`. `getLogsSince` always succeeds, so the hydrate `catch` path is left out.
- `appendLogs` called with a missing list is not modelled, because the hook always passes an array.
- The asynchronous steps of one flush (append, then prune) run as one step here. A `clearCache` racing with an in-flight persist is not modelled.
- The WebSocket, `JSON.parse`, `Math.random` and the clock are parameters. Timers and intervals are explicit method calls; real time and timer overlap are not modelled.
- One flush reads the clock once. The source calls `Date.now()` three times in a few microseconds (token, window bound, summary time).
- Handler calls from a socket that is no longer current are not modelled. Socket events require a live socket.
- LogsSocket.LogsSocket.Restart: the old socket's late `onclose` (useLogsSocket.js:202-210) is not modelled. Once the flag is lowered, that late handler would clear the new socket's reference and schedule another connection.
- LogsSocket.LogsSocket.Teardown: the clean-up (useLogsSocket.js:230-237) does not clear the banner and flash timeouts that flushes schedule (106-118), including the final flush's. These timeouts, and the socket's close event, can still arrive after teardown; in the model BannerTimeout, FlashTimeout and OnClose stay callable. A clean-up that cancels every timer is therefore not modelled.
- React state batching and re-rendering are not modelled. State setters are direct field updates.
- MetricsSeries.PointOf: the sample's counts are `nat` fields. `Number(...)` of a non-numeric count and a non-numeric `ts_ms` in the sample are not modelled.
- StreamHealth.UpdateHistory: states and timestamps are strings and integers. The falsy check on `state` is reduced to the empty string.
- RtspHealth.GetStreamHealth: `camId` is a string, so its falsy check is the empty string.
- The `useQuery` polling around `getStreamHealth`, all rendering (`buildMetadata`, styles, icons, the area graph), the graph component's forwarding of batch counts to `ingest`, and the application shell are not part of this model.

## Findings

| source | as written | input that shows it | evidently intended | confidence | as-written member | corrected member |
|---|---|---|---|---|---|---|
| src/components/StreamHealthPanel.jsx:5-8 | whole minutes are taken before rounding, then the remainder is rounded on its own; below 60 the seconds are rounded with no carry into minutes | an age of 119.6 s reads "1m 60s" and 59.6 s reads "60s" (lemmas `FormatAgeSixtySeconds`, `FormatAgeSixtySecondsBelowMinute`) | round once, then split: "2m 0s" and "1m 0s" | not executed | StreamHealth.FormatAge | StreamHealth.FormatAgeRounded |
| src/components/useLogsSocket.js:231 | the clean-up raises the manual-close flag, and nothing ever lowers it; when the effect runs again on the same hook instance (a remount, or the development double run of effects; the app passes a constant `url`), `connectSocket` returns at once | mount, clean-up, re-run, then the old socket's close event (method `EffectRerunAsWritten`): the hook never connects; it reads connecting until the close event, then closed | lower the flag when the effect starts, so the re-run connects | not executed | LogsSocket.LogsSocket.RestartAsWritten | LogsSocket.LogsSocket.Restart |
| src/components/StreamHealthPanel.jsx:74-85 | on mount both effects run in order: the `[state]` effect queues its update, then the `[resetKey]` effect queues `setStateHistory([])`, which wins; the same happens on every reset key change | mount with state "live" (lemma `ResetDropsCurrentState`): the history is empty, zero transitions and a dash trail, although the panel shows state "live" | a reset starts the history from the current state | not executed | StreamHealth.EffectsAsWritten | StreamHealth.EffectsSeeded |
