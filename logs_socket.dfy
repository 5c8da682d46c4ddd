/**
 * The live-log socket controller: a WebSocket connection state machine with
 * exponential backoff and a heartbeat, an ingestion buffer filled by
 * messages, and a periodic flush that drains the buffer into a batch
 * summary, merges the batch newest-first into the visible log (ten-minute
 * window, at most 500 rows, rows flashed with the batch token) and persists
 * it to the durable store.
 *
 * The WebSocket, `JSON.parse`, `Math.random`, the clock and the timers are
 * outside: their outcomes are method parameters and timer firings are
 * method calls.
 */
module LogsSocket {
  import opened Js
  import Seqs
  import opened LogStorage

  const RetentionMinutes := 10
  const RetentionMs := RetentionMinutes * 60 * 1000
  const MaxInMemoryLogs := 500
  const FlushIntervalMs := 3000
  const RowFlashMs := 3200
  const BatchBannerMs := 2600
  const HeartbeatCheckMs := 5000
  const HeartbeatStaleMs := 15000
  const ReconnectBaseMs := 1000
  const ReconnectMaxMs := 15000
  /** `Math.floor(Math.random() * 400)` lies in `[0, JitterRange)`. */
  const JitterRange := 400
  const MaxReconnectDelay := ReconnectMaxMs + JitterRange - 1

  /** The property marking a row as part of a just-flushed batch. */
  const FlashKey := "_flashBatchToken"

  datatype SocketState = Connecting | Connected | Error | Stale | Reconnecting | Closed

  // ------------------------------------------------------------ backoff

  function Pow2(n: nat): (r: nat)
    ensures r >= 1
  {
    if n == 0 then 1 else 2 * Pow2(n - 1)
  }

  lemma {:induction false} Pow2Monotone(a: nat, b: nat)
    requires a <= b
    ensures Pow2(a) <= Pow2(b)
  {
    if a < b {
      Pow2Monotone(a, b - 1);
    }
  }

  /** `Math.min(RECONNECT_MAX_MS, RECONNECT_BASE_MS * 2 ** attempt)`. */
  function Backoff(attempt: nat): (r: nat)
    ensures ReconnectBaseMs <= r <= ReconnectMaxMs
  {
    var exp := ReconnectBaseMs * Pow2(attempt);
    if exp < ReconnectMaxMs then exp else ReconnectMaxMs
  }

  /**
   * The backoff doubles from one second until it is capped at fifteen
   * seconds, which it reaches from the fifth attempt on, and never shrinks
   * as the attempt count grows.
   */
  lemma BackoffShape(a: nat, b: nat)
    ensures a < 4 ==> Backoff(a) == ReconnectBaseMs * Pow2(a) && Backoff(a) < ReconnectMaxMs
    ensures a >= 4 ==> Backoff(a) == ReconnectMaxMs
    ensures a <= b ==> Backoff(a) <= Backoff(b)
  {
    assert Pow2(4) == 16;
    if a >= 4 {
      Pow2Monotone(4, a);
    }
    if a <= b {
      Pow2Monotone(a, b);
    }
  }

  /** The reconnect delay, backoff plus jitter, never exceeds 15 399 ms. */
  lemma DelayBound(attempt: nat, jitter: nat)
    requires jitter < JitterRange
    ensures ReconnectBaseMs <= Backoff(attempt) + jitter <= MaxReconnectDelay
  {
  }

  // -------------------------------------------------------- batch summary

  /** The banner's summary of one flushed batch. */
  datatype BatchSummary = BatchSummary(
    token: string,
    count: nat,
    tsMs: int,
    wrongDirectionCount: nat,
    plateFinalCount: nat,
    ocrRawCount: nat,
    speedingCount: nat)

  predicate IsType(entry: Record, t: string)
  {
    Get(entry, "type") == Some(Str(t))
  }

  /** `batch.filter((entry) => entry?.type === t).length`. */
  function CountType(batch: seq<Record>, t: string): (n: nat)
    ensures n <= |batch|
  {
    if batch == [] then 0
    else CountType(batch[..|batch| - 1], t) + if IsType(batch[|batch| - 1], t) then 1 else 0
  }

  function CategoryTotal(batch: seq<Record>): nat
  {
    CountType(batch, "WRONG_DIRECTION") + CountType(batch, "PLATE_FINAL") +
    CountType(batch, "OCR_RAW") + CountType(batch, "SPEEDING")
  }

  /** The four categories exclude each other, so their counts add up to at most the batch size. */
  lemma {:induction false} CategoryTotalBounded(batch: seq<Record>)
    ensures CategoryTotal(batch) <= |batch|
  {
    if batch != [] {
      CategoryTotalBounded(batch[..|batch| - 1]);
    }
  }

  /** The token of a batch flushed at `now`: `batch-${Date.now()}`. */
  function Token(now: nat): string
  {
    "batch-" + DecimalString(now)
  }

  /** Batches flushed at different milliseconds have different tokens. */
  lemma TokenInjective(a: nat, b: nat)
    requires a != b
    ensures Token(a) != Token(b)
  {
    DecimalStringInjective();
    assert Token(a)[6..] == DecimalString(a);
    assert Token(b)[6..] == DecimalString(b);
  }

  predicate SummaryConsistent(s: BatchSummary)
  {
    s.wrongDirectionCount + s.plateFinalCount + s.ocrRawCount + s.speedingCount <= s.count
  }

  /** The summary of a batch: its size and the number of entries of each category. */
  function Summarize(batch: seq<Record>, token: string, now: int): (s: BatchSummary)
    ensures s.token == token && s.tsMs == now && s.count == |batch|
    ensures s.wrongDirectionCount == CountType(batch, "WRONG_DIRECTION")
    ensures s.plateFinalCount == CountType(batch, "PLATE_FINAL")
    ensures s.ocrRawCount == CountType(batch, "OCR_RAW")
    ensures s.speedingCount == CountType(batch, "SPEEDING")
    ensures SummaryConsistent(s)
  {
    CategoryTotalBounded(batch);
    BatchSummary(token, |batch|, now,
      CountType(batch, "WRONG_DIRECTION"), CountType(batch, "PLATE_FINAL"),
      CountType(batch, "OCR_RAW"), CountType(batch, "SPEEDING"))
  }

  /** `prev?.token === batchToken ? null : prev`: only this batch's banner is dismissed. */
  function DismissBanner(banner: Option<BatchSummary>, token: string): (r: Option<BatchSummary>)
    ensures r.None? <==> banner.None? || banner.value.token == token
    ensures r.Some? ==> r == banner
  {
    if banner.Some? && banner.value.token == token then None else banner
  }

  // --------------------------------------------------------- flash tags

  /** `{ ...entry, _flashBatchToken: token }`. */
  function Tag(entry: Record, token: string): Record
  {
    entry[FlashKey := Str(token)]
  }

  /** The batch newest first, every row tagged with the batch token. */
  function FlashBatch(batch: seq<Record>, token: string): (r: seq<Record>)
    ensures |r| == |batch|
    ensures forall i :: 0 <= i < |r| ==> r[i] == Tag(batch[|batch| - 1 - i], token)
  {
    var newestFirst := Seqs.Reverse(batch);
    seq(|batch|, i requires 0 <= i < |batch| => Tag(newestFirst[i], token))
  }

  /** The flash clean-up for one row: drop the tag only if it is this batch's. */
  function StripEntry(entry: Record, token: string): Record
  {
    if Get(entry, FlashKey) == Some(Str(token)) then entry - {FlashKey} else entry
  }

  /** The flash clean-up over the visible log. */
  function StripFlash(logs: seq<Record>, token: string): (r: seq<Record>)
    ensures |r| == |logs|
    ensures forall i :: 0 <= i < |r| ==> r[i] == StripEntry(logs[i], token)
  {
    seq(|logs|, i requires 0 <= i < |logs| => StripEntry(logs[i], token))
  }

  /**
   * The flash clean-up touches only rows carrying this token: those lose
   * the tag and nothing else, every other row is left as it is, and a
   * second clean-up with the same token changes nothing.
   */
  lemma StripFlashTouchesOnlyToken(logs: seq<Record>, token: string)
    ensures forall i :: 0 <= i < |logs| && Get(logs[i], FlashKey) != Some(Str(token)) ==>
      StripFlash(logs, token)[i] == logs[i]
    ensures forall i :: 0 <= i < |logs| && Get(logs[i], FlashKey) == Some(Str(token)) ==>
      var r := StripFlash(logs, token)[i];
      FlashKey !in r && r.Keys == logs[i].Keys - {FlashKey} && forall k :: k in r ==> r[k] == logs[i][k]
    ensures StripFlash(StripFlash(logs, token), token) == StripFlash(logs, token)
  {
  }

  /** Stripping the flash tags off a flashed batch gives back the batch, newest first. */
  lemma StripFlashUndoesTag(batch: seq<Record>, token: string)
    requires forall e | e in batch :: FlashKey !in e
    ensures StripFlash(FlashBatch(batch, token), token) == Seqs.Reverse(batch)
  {
    var r := StripFlash(FlashBatch(batch, token), token);
    forall i | 0 <= i < |batch| ensures r[i] == Seqs.Reverse(batch)[i] {
      var e := batch[|batch| - 1 - i];
      assert e in batch;
      assert Tag(e, token) - {FlashKey} == e;
    }
  }

  // -------------------------------------------------------------- merge

  /** `entry.ts_ms >= minTsMs`, with `undefined` and NaN comparing false. */
  predicate InWindow(entry: Record, minTs: int)
  {
    var t := Get(entry, TsKey);
    t.Some? && ToNumber(t.value).Some? && ToNumber(t.value).value >= minTs as real
  }

  /** `merged.filter((entry) => entry.ts_ms >= minTsMs)`. */
  function RecentOnly(s: seq<Record>, minTs: int): (r: seq<Record>)
    ensures |r| <= |s|
    ensures forall e :: e in r <==> e in s && InWindow(e, minTs)
  {
    if s == [] then []
    else RecentOnly(s[..|s| - 1], minTs) + if InWindow(s[|s| - 1], minTs) then [s[|s| - 1]] else []
  }

  lemma {:induction false} RecentOnlyAppend(a: seq<Record>, b: seq<Record>, minTs: int)
    ensures RecentOnly(a + b, minTs) == RecentOnly(a, minTs) + RecentOnly(b, minTs)
  {
    if b == [] {
      assert a + b == a;
    } else {
      assert (a + b)[..|a + b| - 1] == a + b[..|b| - 1];
      RecentOnlyAppend(a, b[..|b| - 1], minTs);
    }
  }

  lemma {:induction false} RecentOnlyAll(s: seq<Record>, minTs: int)
    requires forall e | e in s :: InWindow(e, minTs)
    ensures RecentOnly(s, minTs) == s
  {
    if s != [] {
      var init := s[..|s| - 1];
      forall e | e in init ensures InWindow(e, minTs) {
        var i :| 0 <= i < |init| && init[i] == e;
        assert s[i] == e;
      }
      RecentOnlyAll(init, minTs);
      assert InWindow(s[|s| - 1], minTs);
      assert init + [s[|s| - 1]] == s;
    }
  }

  /** The visible log after a flush: batch first, then the old rows, windowed and capped. */
  function Merge(flash: seq<Record>, prev: seq<Record>, minTs: int): (r: seq<Record>)
    ensures |r| <= MaxInMemoryLogs
    ensures forall e | e in r :: InWindow(e, minTs) && (e in flash || e in prev)
  {
    Seqs.Take(RecentOnly(flash + prev, minTs), MaxInMemoryLogs)
  }

  /**
   * The merged log is the in-window rows of the flashed batch, then the
   * in-window old rows in their previous order, cut to 500.
   */
  lemma MergeSplits(batch: seq<Record>, token: string, prev: seq<Record>, minTs: int)
    ensures Merge(FlashBatch(batch, token), prev, minTs) ==
      Seqs.Take(RecentOnly(FlashBatch(batch, token), minTs) + RecentOnly(prev, minTs), MaxInMemoryLogs)
  {
    RecentOnlyAppend(FlashBatch(batch, token), prev, minTs);
  }

  /** Tagging a row does not move it in or out of the window. */
  lemma FlashInWindow(batch: seq<Record>, token: string, minTs: int)
    requires forall e | e in batch :: InWindow(e, minTs)
    ensures RecentOnly(FlashBatch(batch, token), minTs) == FlashBatch(batch, token)
  {
    var flash := FlashBatch(batch, token);
    forall e | e in flash ensures InWindow(e, minTs) {
      var i :| 0 <= i < |flash| && flash[i] == e;
      assert batch[|batch| - 1 - i] in batch;
    }
    RecentOnlyAll(flash, minTs);
  }

  /**
   * When every row of the batch is in the window and the batch fits, the
   * merged log starts with the whole batch, newest first, each row tagged
   * with the batch token.
   */
  lemma MergeStartsWithBatch(batch: seq<Record>, token: string, prev: seq<Record>, minTs: int)
    requires forall e | e in batch :: InWindow(e, minTs)
    requires |batch| <= MaxInMemoryLogs
    ensures var r := Merge(FlashBatch(batch, token), prev, minTs);
      |r| >= |batch| && r[..|batch|] == FlashBatch(batch, token) &&
      (forall i :: 0 <= i < |batch| ==> r[i] == Tag(batch[|batch| - 1 - i], token)) &&
      (forall i :: 0 <= i < |batch| ==> Get(r[i], FlashKey) == Some(Str(token)))
  {
    var flash := FlashBatch(batch, token);
    MergeSplits(batch, token, prev, minTs);
    FlashInWindow(batch, token, minTs);
    var all := flash + RecentOnly(prev, minTs);
    assert all[..|batch|] == flash;
  }

  // ----------------------------------------------------------- the hook

  class LogsSocket {
    var logs: seq<Record>
    var isHydrating: bool
    var hydrateCancelled: bool
    var latestBatch: Option<BatchSummary>
    var socketState: SocketState
    var incomingCount: nat
    var droppedCount: nat
    /** The time of the last message, kept across reconnects. */
    var lastMessageTs: Option<int>
    var buffer: seq<Record>
    /** `wsRef.current` is set. */
    var ws: bool
    /** A socket exists whose handlers can still fire. */
    var socketLive: bool
    /** `close()` has been called on that socket. */
    var closeRequested: bool
    /** The delay of the pending reconnect timeout, if one is pending. */
    var reconnectTimer: Option<nat>
    var heartbeatTimerOn: bool
    var flushTimerOn: bool
    var reconnectAttempt: nat
    var manuallyClosed: bool
    const store: LogStore

    ghost predicate Valid()
      reads this, store
    {
      store.Valid() &&
      |logs| <= MaxInMemoryLogs &&
      (reconnectTimer.Some? ==> reconnectTimer.value <= MaxReconnectDelay) &&
      (manuallyClosed ==> reconnectTimer.None?) &&
      (latestBatch.Some? ==> SummaryConsistent(latestBatch.value))
    }

    /** Mounting the hook: hydration starts, both intervals are set and the first connection is attempted. */
    constructor (store: LogStore, constructionFails: bool, jitter: nat)
      requires store.Valid() && jitter < JitterRange
      ensures Valid() && this.store == store
      ensures logs == [] && buffer == [] && isHydrating && !hydrateCancelled && latestBatch.None?
      ensures incomingCount == 0 && droppedCount == 0 && lastMessageTs.None?
      ensures flushTimerOn && heartbeatTimerOn && !manuallyClosed
      ensures !constructionFails ==> socketState == Connecting && ws && socketLive && reconnectAttempt == 0 && reconnectTimer.None?
      ensures constructionFails ==>
        socketState == Reconnecting && !ws && reconnectAttempt == 1 &&
        reconnectTimer == Some(Backoff(0) + jitter)
    {
      this.store := store;
      logs := [];
      isHydrating := true;
      hydrateCancelled := false;
      latestBatch := None;
      socketState := Connecting;
      incomingCount := 0;
      droppedCount := 0;
      lastMessageTs := None;
      buffer := [];
      ws := false;
      socketLive := false;
      closeRequested := false;
      reconnectTimer := None;
      reconnectAttempt := 0;
      manuallyClosed := false;
      flushTimerOn := true;
      heartbeatTimerOn := true;
      new;
      ConnectSocket(constructionFails, jitter);
    }

    /** `scheduleReconnect()`: unless closed by hand, wait backoff plus jitter, then reconnect. */
    method ScheduleReconnect(jitter: nat)
      requires Valid() && jitter < JitterRange
      modifies this`socketState, this`reconnectTimer, this`reconnectAttempt
      ensures Valid()
      ensures old(manuallyClosed) ==>
        socketState == old(socketState) && reconnectTimer == old(reconnectTimer) && reconnectAttempt == old(reconnectAttempt)
      ensures !old(manuallyClosed) ==>
        socketState == Reconnecting && reconnectAttempt == old(reconnectAttempt) + 1 &&
        reconnectTimer == Some(Backoff(old(reconnectAttempt)) + jitter)
    {
      if manuallyClosed {
        return;
      }
      socketState := Reconnecting;
      reconnectTimer := None;
      var exp := Backoff(reconnectAttempt);
      var delay := exp + jitter;
      reconnectAttempt := reconnectAttempt + 1;
      reconnectTimer := Some(delay);
    }

    /** `connectSocket()`; `constructionFails` is `new WebSocket(url)` throwing. */
    method ConnectSocket(constructionFails: bool, jitter: nat)
      requires Valid() && jitter < JitterRange
      modifies this`socketState, this`reconnectTimer, this`reconnectAttempt, this`ws, this`socketLive, this`closeRequested
      ensures Valid()
      ensures old(manuallyClosed) ==> unchanged(this)
      ensures !old(manuallyClosed) && constructionFails ==>
        socketState == Reconnecting && reconnectAttempt == old(reconnectAttempt) + 1 &&
        reconnectTimer == Some(Backoff(old(reconnectAttempt)) + jitter) &&
        ws == old(ws) && socketLive == old(socketLive) && closeRequested == old(closeRequested)
      ensures !old(manuallyClosed) && !constructionFails ==>
        socketState == Connecting && ws && socketLive && !closeRequested &&
        reconnectTimer == old(reconnectTimer) && reconnectAttempt == old(reconnectAttempt)
    {
      if manuallyClosed {
        return;
      }
      socketState := Connecting;
      if constructionFails {
        ScheduleReconnect(jitter);
        return;
      }
      ws := true;
      socketLive := true;
      closeRequested := false;
    }

    /** The reconnect timeout fires. */
    method ReconnectTimerFires(constructionFails: bool, jitter: nat)
      requires Valid() && jitter < JitterRange && reconnectTimer.Some?
      modifies this`socketState, this`reconnectTimer, this`reconnectAttempt, this`ws, this`socketLive, this`closeRequested
      ensures Valid()
      ensures !constructionFails ==>
        socketState == Connecting && ws && socketLive && reconnectTimer.None? && reconnectAttempt == old(reconnectAttempt)
      ensures constructionFails ==>
        socketState == Reconnecting && reconnectAttempt == old(reconnectAttempt) + 1 &&
        reconnectTimer == Some(Backoff(old(reconnectAttempt)) + jitter)
    {
      reconnectTimer := None;
      ConnectSocket(constructionFails, jitter);
    }

    /** `ws.onopen`: the backoff starts over. */
    method OnOpen()
      requires Valid() && socketLive
      modifies this`reconnectAttempt, this`socketState
      ensures Valid()
      ensures reconnectAttempt == 0 && socketState == Connected
    {
      reconnectAttempt := 0;
      socketState := Connected;
    }

    /**
     * `ws.onmessage`; `parsed` is the outcome of `JSON.parse` (`None` when
     * it throws). The message time is recorded either way.
     */
    method OnMessage(parsed: Option<Value>, now: int)
      requires Valid() && socketLive
      modifies this`lastMessageTs, this`buffer, this`incomingCount, this`droppedCount
      ensures Valid()
      ensures lastMessageTs == Some(now)
      ensures parsed.Some? ==>
        buffer == old(buffer) + [NormalizeLog(parsed.value, now)] &&
        incomingCount == old(incomingCount) + 1 && droppedCount == old(droppedCount)
      ensures parsed.None? ==>
        buffer == old(buffer) && incomingCount == old(incomingCount) && droppedCount == old(droppedCount) + 1
    {
      lastMessageTs := Some(now);
      if parsed.Some? {
        var data := NormalizeLog(parsed.value, now);
        buffer := buffer + [data];
        incomingCount := incomingCount + 1;
      } else {
        droppedCount := droppedCount + 1;
      }
    }

    /** `ws.onerror`. */
    method OnError()
      requires Valid() && socketLive
      modifies this`socketState
      ensures Valid() && socketState == Error
    {
      socketState := Error;
    }

    /** `ws.onclose`: closed for good after a manual close, otherwise a reconnect is scheduled. */
    method OnClose(jitter: nat)
      requires Valid() && socketLive && jitter < JitterRange
      modifies this`ws, this`socketLive, this`socketState, this`reconnectTimer, this`reconnectAttempt
      ensures Valid() && !ws && !socketLive
      ensures manuallyClosed ==>
        socketState == Closed &&
        reconnectTimer == old(reconnectTimer) && reconnectAttempt == old(reconnectAttempt)
      ensures !manuallyClosed ==>
        socketState == Reconnecting &&
        reconnectAttempt == old(reconnectAttempt) + 1 && reconnectTimer == Some(Backoff(old(reconnectAttempt)) + jitter)
    {
      ws := false;
      socketLive := false;
      if manuallyClosed {
        socketState := Closed;
        return;
      }
      ScheduleReconnect(jitter);
    }

    /**
     * The heartbeat interval fires; `socketOpen` is `readyState === OPEN`.
     * A silent open socket is marked stale and closed.
     */
    method HeartbeatTick(now: int, socketOpen: bool)
      requires Valid() && heartbeatTimerOn
      modifies this`socketState, this`closeRequested
      ensures Valid()
      ensures var stale := ws && socketOpen && lastMessageTs.Some? && lastMessageTs.value != 0 &&
          now - lastMessageTs.value > HeartbeatStaleMs;
        (stale ==> socketState == Stale && closeRequested) &&
        (!stale ==> socketState == old(socketState) && closeRequested == old(closeRequested))
    {
      if !ws || !socketOpen {
        return;
      }
      var lastTs := lastMessageTs;
      if lastTs.None? || lastTs.value == 0 {
        return;
      }
      if now - lastTs.value > HeartbeatStaleMs {
        socketState := Stale;
        closeRequested := true;
      }
    }

    /**
     * `flushBuffer()` at time `now`: drain the buffer; for a non-empty batch
     * publish its summary, merge it into the visible log and persist it
     * (pruning only after the append succeeded).
     */
    method FlushBuffer(now: nat)
      requires Valid()
      modifies this`buffer, this`latestBatch, this`logs, store
      ensures Valid() && buffer == []
      ensures old(buffer) == [] ==>
        latestBatch == old(latestBatch) && logs == old(logs) &&
        store.entries == old(store.entries) && store.nextId == old(store.nextId)
      ensures old(buffer) != [] ==>
        var token := Token(now);
        var minTs := now - RetentionMs;
        var appended := Append(old(store.entries), old(store.nextId), old(buffer), now);
        latestBatch == Some(Summarize(old(buffer), token, now)) &&
        logs == Merge(FlashBatch(old(buffer), token), old(logs), minTs) &&
        store.nextId == appended.nextId &&
        store.entries == if appended.ok then Unpruned(appended.entries, minTs) else appended.entries
    {
      var batch := buffer;
      buffer := [];
      if |batch| == 0 {
        return;
      }
      var batchToken := Token(now);
      var minTsMs := now - RetentionMs;
      var flashBatch := FlashBatch(batch, batchToken);
      latestBatch := Some(Summarize(batch, batchToken, now));
      logs := Merge(flashBatch, logs, minTsMs);
      var ok := store.AppendLogs(batch, now);
      if ok {
        store.PruneOlderThan(minTsMs);
      }
    }

    /** The flush interval fires. */
    method FlushTick(now: nat)
      requires Valid() && flushTimerOn
      modifies this`buffer, this`latestBatch, this`logs, store
      ensures Valid() && buffer == []
      ensures old(buffer) == [] ==>
        latestBatch == old(latestBatch) && logs == old(logs) &&
        store.entries == old(store.entries) && store.nextId == old(store.nextId)
      ensures old(buffer) != [] ==>
        latestBatch == Some(Summarize(old(buffer), Token(now), now)) &&
        logs == Merge(FlashBatch(old(buffer), Token(now)), old(logs), now - RetentionMs) &&
        var appended := Append(old(store.entries), old(store.nextId), old(buffer), now);
        store.nextId == appended.nextId &&
        store.entries == if appended.ok then Unpruned(appended.entries, now - RetentionMs) else appended.entries
    {
      FlushBuffer(now);
    }

    /** The banner timeout of the batch with token `token` fires. */
    method BannerTimeout(token: string)
      requires Valid()
      modifies this`latestBatch
      ensures Valid() && latestBatch == DismissBanner(old(latestBatch), token)
    {
      if latestBatch.Some? && latestBatch.value.token == token {
        latestBatch := None;
      }
    }

    /** The row-flash timeout of the batch with token `token` fires. */
    method FlashTimeout(token: string)
      requires Valid()
      modifies this`logs
      ensures Valid() && logs == StripFlash(old(logs), token)
    {
      logs := StripFlash(logs, token);
    }

    /**
     * The socket effect's clean-up: no more reconnects, heartbeats or flush
     * ticks, one last flush, and the socket is asked to close. The banner and
     * flash timeouts of earlier flushes and of this last one are not cleared,
     * and the socket's close event is still to come.
     */
    method Teardown(now: nat)
      requires Valid()
      modifies this`manuallyClosed, this`reconnectTimer, this`heartbeatTimerOn, this`flushTimerOn,
        this`buffer, this`latestBatch, this`logs, store, this`ws, this`closeRequested
      ensures Valid()
      ensures manuallyClosed && reconnectTimer.None? && !heartbeatTimerOn && !flushTimerOn && !ws && buffer == []
      ensures closeRequested == (old(ws) || old(closeRequested))
      ensures old(buffer) != [] ==>
        latestBatch == Some(Summarize(old(buffer), Token(now), now)) &&
        logs == Merge(FlashBatch(old(buffer), Token(now)), old(logs), now - RetentionMs) &&
        var appended := Append(old(store.entries), old(store.nextId), old(buffer), now);
        store.nextId == appended.nextId &&
        store.entries == if appended.ok then Unpruned(appended.entries, now - RetentionMs) else appended.entries
      ensures old(buffer) == [] ==>
        latestBatch == old(latestBatch) && logs == old(logs) &&
        store.entries == old(store.entries) && store.nextId == old(store.nextId)
    {
      manuallyClosed := true;
      reconnectTimer := None;
      heartbeatTimerOn := false;
      flushTimerOn := false;
      FlushBuffer(now);
      if ws {
        closeRequested := true;
      }
      ws := false;
    }

    /**
     * The socket effect running again on the same hook instance after its
     * clean-up (a remount, or the development double run of effects), as
     * written: the intervals are set again, but the manual-close flag from
     * the clean-up is still up, so no connection is attempted.
     */
    method RestartAsWritten(constructionFails: bool, jitter: nat)
      requires Valid() && jitter < JitterRange
      modifies this`flushTimerOn, this`heartbeatTimerOn,
        this`socketState, this`reconnectTimer, this`reconnectAttempt, this`ws, this`socketLive, this`closeRequested
      ensures Valid() && flushTimerOn && heartbeatTimerOn
      ensures old(manuallyClosed) ==>
        ws == old(ws) && socketLive == old(socketLive) && socketState == old(socketState) && reconnectTimer.None?
    {
      flushTimerOn := true;
      heartbeatTimerOn := true;
      ConnectSocket(constructionFails, jitter);
    }

    /** The socket effect running again, with the manual-close flag lowered first. */
    method Restart(constructionFails: bool, jitter: nat)
      requires Valid() && jitter < JitterRange
      modifies this`manuallyClosed, this`flushTimerOn, this`heartbeatTimerOn,
        this`socketState, this`reconnectTimer, this`reconnectAttempt, this`ws, this`socketLive, this`closeRequested
      ensures Valid() && flushTimerOn && heartbeatTimerOn && !manuallyClosed
      ensures !constructionFails ==> ws && socketLive && socketState == Connecting
      ensures constructionFails ==>
        socketState == Reconnecting && reconnectTimer == Some(Backoff(old(reconnectAttempt)) + jitter)
    {
      manuallyClosed := false;
      flushTimerOn := true;
      heartbeatTimerOn := true;
      ConnectSocket(constructionFails, jitter);
    }

    /**
     * The hydration read completes; `startNow` is the clock when it began.
     * Unless cancelled, the visible log becomes the newest 500 persisted
     * rows of the window, newest first.
     */
    method HydrateDone(startNow: int)
      requires Valid()
      modifies this`logs, this`isHydrating
      ensures Valid()
      ensures hydrateCancelled ==> logs == old(logs) && isHydrating == old(isHydrating)
      ensures !hydrateCancelled ==>
        !isHydrating &&
        logs == Seqs.Reverse(Seqs.TakeLast(store.GetLogsSince(startNow - RetentionMs), MaxInMemoryLogs))
    {
      var minTsMs := startNow - RetentionMs;
      var persisted := store.GetLogsSince(minTsMs);
      if hydrateCancelled {
        return;
      }
      logs := Seqs.Reverse(Seqs.TakeLast(persisted, MaxInMemoryLogs));
      isHydrating := false;
    }

    /** The hydration effect's clean-up. */
    method CancelHydrate()
      requires Valid()
      modifies this`hydrateCancelled
      ensures Valid() && hydrateCancelled
    {
      hydrateCancelled := true;
    }

    /** `clearView()`. */
    method ClearView()
      requires Valid()
      modifies this`logs
      ensures Valid() && logs == []
    {
      logs := [];
    }

    /** `clearCache()`: empty the store, then the view. */
    method ClearCache()
      requires Valid()
      modifies this`logs, store
      ensures Valid() && logs == [] && store.entries == [] && store.nextId == old(store.nextId)
    {
      store.ClearPersistedLogs();
      logs := [];
    }
  }

  /**
   * Rows persisted by a flush never carry the flash tag, provided no
   * incoming message and no stored row carried one: the store gets the
   * untagged batch.
   */
  lemma PersistedUntagged(entries: seq<Record>, nextId: int, batch: seq<Record>, now: int, minTs: int)
    requires forall e | e in batch :: FlashKey !in e
    requires forall e | e in entries :: FlashKey !in e
    ensures var appended := Append(entries, nextId, batch, now);
      (forall e | e in appended.entries :: FlashKey !in e) &&
      (forall e | e in Unpruned(appended.entries, minTs) :: FlashKey !in e)
  {
    var appended := Append(entries, nextId, batch, now);
    AppendAddsNoOtherField(entries, nextId, batch, now, FlashKey);
    UnprunedMembers(appended.entries, minTs);
  }

  /**
   * The effect run again on the same hook instance, as written: mount, clean
   * up, run the effect again, then the old socket's close event arrives. The
   * hook reads connecting until that event and closed after it; it never
   * connects again.
   */
  method EffectRerunAsWritten(store: LogStore, now: nat) returns (connected: bool, stateBeforeClose: SocketState, state: SocketState)
    requires store.Valid()
    modifies store
    ensures !connected && stateBeforeClose == Connecting && state == Closed
  {
    var hook := new LogsSocket(store, false, 0);
    hook.Teardown(now);
    hook.RestartAsWritten(false, 0);
    stateBeforeClose := hook.socketState;
    hook.OnClose(0);
    connected := hook.ws;
    state := hook.socketState;
  }

  /** The same re-run with the flag lowered: the hook connects again. */
  method EffectRerunRestarted(store: LogStore, now: nat) returns (connected: bool, state: SocketState)
    requires store.Valid()
    modifies store
    ensures connected && state == Connecting
  {
    var hook := new LogsSocket(store, false, 0);
    hook.Teardown(now);
    hook.Restart(false, 0);
    connected := hook.ws;
    state := hook.socketState;
  }
}
