/**
 * The stream-health panel's data logic: the short history of distinct
 * stream states (newest first, at most six), its oldest-first trail and
 * transition count, and the age formatting of the frame/freeze ages.
 */
module StreamHealth {
  import opened Js
  import Seqs

  const MaxHistory := 6
  const TrailSeparator := " \U{2192} "
  const Dash := "\U{2014}"

  datatype Entry = Entry(state: string, ts: int)

  /** Newest first, at most six entries, no two neighbours with the same state. */
  predicate ValidHistory(h: seq<Entry>)
  {
    |h| <= MaxHistory && forall i :: 0 <= i < |h| - 1 ==> h[i].state != h[i + 1].state
  }

  /**
   * The history update when the state changes to `state` at time `now`:
   * unchanged when the state is empty or already at the head, otherwise the
   * new entry is put in front and the list cut to six.
   */
  function UpdateHistory(prev: seq<Entry>, state: string, now: int): (r: seq<Entry>)
    ensures state == "" || (|prev| > 0 && prev[0].state == state) ==> r == prev
    ensures state != "" ==> |r| > 0 && r[0].state == state
    ensures state != "" && !(|prev| > 0 && prev[0].state == state) ==>
      r[0] == Entry(state, now) && r[1..] == Seqs.Take(prev, MaxHistory - 1)
  {
    if state == "" then prev
    else if |prev| > 0 && prev[0].state == state then prev
    else Seqs.Take([Entry(state, now)] + prev, MaxHistory)
  }

  /** Every update keeps the history short and free of repeated neighbours. */
  lemma UpdateKeepsValid(prev: seq<Entry>, state: string, now: int)
    requires ValidHistory(prev)
    ensures ValidHistory(UpdateHistory(prev, state, now))
  {
    var r := UpdateHistory(prev, state, now);
    if r != prev {
      var full := [Entry(state, now)] + prev;
      assert r == full[..|r|];
      forall i | 0 <= i < |r| - 1 ensures r[i].state != r[i + 1].state {
        if i > 0 {
          assert r[i] == prev[i - 1] && r[i + 1] == prev[i];
        }
      }
    }
  }

  /** A change of the reset key empties the history. */
  function ResetHistory(): (r: seq<Entry>)
    ensures ValidHistory(r) && TransitionCount(r) == 0 && TransitionTrail(r) == Dash
  {
    []
  }

  /**
   * One commit of the panel as written. The `[state]` effect (when `state`
   * changed) and then the `[resetKey]` effect (when the reset key changed)
   * queue their updates, which apply in that order; on mount both run.
   */
  function EffectsAsWritten(prev: seq<Entry>, state: string, now: int, stateChanged: bool, resetChanged: bool): (r: seq<Entry>)
    ensures !resetChanged ==> r == if stateChanged then UpdateHistory(prev, state, now) else prev
  {
    var h := if stateChanged then UpdateHistory(prev, state, now) else prev;
    if resetChanged then ResetHistory() else h
  }

  /**
   * As written, the reset queued second wins: on mount, and on every reset
   * key change, the current state is not recorded and the trail reads a dash.
   */
  lemma ResetDropsCurrentState(prev: seq<Entry>, state: string, now: int, stateChanged: bool)
    ensures EffectsAsWritten(prev, state, now, stateChanged, true) == []
    ensures TransitionTrail(EffectsAsWritten([], state, now, true, true)) == Dash
  {
  }

  /**
   * The evidently intended commit: a reset starts the history over from the
   * current state, so the state shown is always the newest entry.
   */
  function EffectsSeeded(prev: seq<Entry>, state: string, now: int, stateChanged: bool, resetChanged: bool): (r: seq<Entry>)
    ensures state != "" && (stateChanged || resetChanged) ==> |r| > 0 && r[0].state == state
    ensures resetChanged ==> (state == "" ==> r == []) && (state != "" ==> r == [Entry(state, now)])
    ensures ValidHistory(prev) ==> ValidHistory(r)
  {
    if resetChanged then
      UpdateKeepsValid([], state, now);
      UpdateHistory([], state, now)
    else if stateChanged && ValidHistory(prev) then
      UpdateKeepsValid(prev, state, now);
      UpdateHistory(prev, state, now)
    else if stateChanged then UpdateHistory(prev, state, now)
    else prev
  }

  /** Without a reset the two commits are the same. */
  lemma EffectsAgreeWithoutReset(prev: seq<Entry>, state: string, now: int, stateChanged: bool)
    ensures EffectsSeeded(prev, state, now, stateChanged, false) == EffectsAsWritten(prev, state, now, stateChanged, false)
  {
  }

  /** The states oldest first. */
  function OldestFirst(h: seq<Entry>): (r: seq<string>)
    ensures |r| == |h|
    ensures forall i :: 0 <= i < |h| ==> r[i] == h[|h| - 1 - i].state
  {
    if h == [] then [] else OldestFirst(h[1..]) + [h[0].state]
  }

  /** `parts.join(sep)`. */
  function Join(parts: seq<string>, sep: string): string
  {
    if |parts| == 0 then ""
    else if |parts| == 1 then parts[0]
    else Join(parts[..|parts| - 1], sep) + sep + parts[|parts| - 1]
  }

  /** `transitionTrail`: a dash for an empty history, otherwise the states oldest first, arrow-joined. */
  function TransitionTrail(h: seq<Entry>): string
  {
    if |h| == 0 then Dash else Join(OldestFirst(h), TrailSeparator)
  }

  /** Until the cap is reached, each change of state extends the trail by an arrow and the new state. */
  lemma TrailGrows(prev: seq<Entry>, state: string, now: int)
    requires 0 < |prev| < MaxHistory && state != "" && prev[0].state != state
    ensures TransitionTrail(UpdateHistory(prev, state, now)) == TransitionTrail(prev) + TrailSeparator + state
  {
    var r := UpdateHistory(prev, state, now);
    assert r == [Entry(state, now)] + prev;
    assert r[1..] == prev;
    var o := OldestFirst(r);
    assert o[..|o| - 1] == OldestFirst(prev);
  }

  /** `transitionCount`: one less than the history length, never negative. */
  function TransitionCount(h: seq<Entry>): nat
  {
    if |h| == 0 then 0 else |h| - 1
  }

  /** Adjacent pairs whose states differ. */
  function Changes(h: seq<Entry>): nat
  {
    if |h| < 2 then 0
    else Changes(h[1..]) + if h[0].state != h[1].state then 1 else 0
  }

  /** On a valid history the transition count is exactly the number of state changes it records. */
  lemma {:induction false} TransitionCountCountsChanges(h: seq<Entry>)
    requires forall i :: 0 <= i < |h| - 1 ==> h[i].state != h[i + 1].state
    ensures TransitionCount(h) == Changes(h)
  {
    if |h| >= 2 {
      TransitionCountCountsChanges(h[1..]);
    }
  }

  // ------------------------------------------------------------ age

  /** `Math.round`: halves go up. */
  function Round(x: real): int
  {
    (x + 0.5).Floor
  }

  datatype AgeLabel = NoAge | Secs(secs: int) | MinSecs(mins: int, secs: int)

  function RenderAge(l: AgeLabel): string
  {
    match l
    case NoAge => Dash
    case Secs(s) => IntString(s) + "s"
    case MinSecs(m, s) => IntString(m) + "m " + IntString(s) + "s"
  }

  /**
   * `formatAge(seconds)` as written: below 60 the rounded seconds; from 60
   * on, whole minutes and the remainder rounded separately, so the seconds
   * part can reach 60.
   */
  function FormatAge(seconds: Option<Value>): (r: AgeLabel)
    ensures !(seconds.Some? && seconds.value.Num?) <==> r.NoAge?
    ensures r.Secs? ==> seconds.value.n < 60.0 && r.secs == Round(seconds.value.n)
    ensures r.MinSecs? ==> var n := seconds.value.n;
      r.mins == (n / 60.0).Floor && r.mins >= 1 && r.mins * 60 <= n.Floor && 0 <= r.secs <= 60 &&
      r.secs == Round(n - (r.mins * 60) as real)
  {
    if seconds.None? || !seconds.value.Num? then NoAge
    else
      var n := seconds.value.n;
      if n < 60.0 then Secs(Round(n))
      else
        var mins := (n / 60.0).Floor;
        MinSecs(mins, Round(n - (mins * 60) as real))
  }

  /** Just under two minutes prints as "1m 60s". */
  lemma FormatAgeSixtySeconds()
    ensures FormatAge(Some(Num(119.6))) == MinSecs(1, 60)
    ensures RenderAge(FormatAge(Some(Num(119.6)))) == "1m 60s"
  {
    assert DecimalString(60) == "60";
  }

  /** Just under a minute prints as "60s" instead of "1m 0s". */
  lemma FormatAgeSixtySecondsBelowMinute()
    ensures FormatAge(Some(Num(59.6))) == Secs(60)
    ensures RenderAge(FormatAge(Some(Num(59.6)))) == "60s"
  {
    assert DecimalString(60) == "60";
  }

  /** The intended formatting: round once, then split into minutes and seconds. */
  function FormatAgeRounded(seconds: Option<Value>): (r: AgeLabel)
    ensures !(seconds.Some? && seconds.value.Num?) <==> r.NoAge?
    ensures r.Secs? ==> r.secs < 60 && r.secs == Round(seconds.value.n)
    ensures r.MinSecs? ==> 0 <= r.secs < 60 && r.mins >= 1 && r.mins * 60 + r.secs == Round(seconds.value.n)
  {
    if seconds.None? || !seconds.value.Num? then NoAge
    else
      var total := Round(seconds.value.n);
      if total < 60 then Secs(total) else MinSecs(total / 60, total % 60)
  }

  /** Where the written formatting is right (seconds part below 60), the rounded one agrees with it. */
  lemma FormatAgeAgrees(seconds: Option<Value>)
    requires var r := FormatAge(seconds); (r.Secs? ==> r.secs < 60) && (r.MinSecs? ==> r.secs < 60)
    ensures FormatAgeRounded(seconds) == FormatAge(seconds)
  {
    if seconds.Some? && seconds.value.Num? && seconds.value.n >= 60.0 {
      var n := seconds.value.n;
      var m := (n / 60.0).Floor;
      var s := Round(n - (m * 60) as real);
      assert Round(n) == m * 60 + s;
    }
  }
}
