/**
 * The live log list's data logic: the category/noise/dedup filter over the
 * visible log, the confidence percentage it relies on, the category list
 * offered as check boxes, the toggle of one category and the relative-time
 * label.
 */
module UnifiedLogList {
  import opened Js

  /** The categories always offered, in display order. */
  const KnownTypes: seq<Value> := [Str("OCR_RAW"), Str("SPEEDING"), Str("PLATE_FINAL"), Str("WRONG_DIRECTION")]

  function Min(a: nat, b: nat): nat
  {
    if a <= b then a else b
  }

  // ---------------------------------------------------------- confidence

  /** `log?.conf ?? log?.data?.conf ?? log?.confidence ?? log?.data?.confidence`. */
  function RawConfidence(log: Record): Option<Value>
  {
    var data := Get(log, "data");
    Coalesce(Coalesce(Coalesce(Get(log, "conf"), Field(data, "conf")), Get(log, "confidence")), Field(data, "confidence"))
  }

  /**
   * `getConfidencePercent(log)`: a numeric confidence, read as a fraction
   * when at most 1 and as a percentage otherwise; `None` (null) when it is
   * missing or not a number.
   */
  function ConfidencePercent(log: Record): (r: Option<real>)
    ensures r.Some? <==> RawConfidence(log).Some? && RawConfidence(log).value.Num?
    ensures r.Some? ==> var c := RawConfidence(log).value.n;
      r.value == (if c <= 1.0 then c * 100.0 else c)
  {
    var conf := RawConfidence(log);
    if conf.None? || !conf.value.Num? then None
    else if conf.value.n <= 1.0 then Some(conf.value.n * 100.0)
    else Some(conf.value.n)
  }

  /**
   * The confidence gate: a numeric confidence passes exactly when it is a
   * fraction above 0.25 or a percentage above 25. Values in (1, 25] are
   * read as percentages and fail.
   */
  lemma ConfidenceGate(log: Record)
    ensures (var p := ConfidencePercent(log); p.Some? && p.value > 25.0) <==>
      (var c := RawConfidence(log);
       c.Some? && c.value.Num? && ((0.25 < c.value.n <= 1.0) || c.value.n > 25.0))
  {
  }

  // ------------------------------------------------------------- filter

  function TypeOf(log: Record): Option<Value>
  {
    Get(log, "type")
  }

  predicate IsType(log: Record, t: string)
  {
    TypeOf(log) == Some(Str(t))
  }

  /** `selectedTypes.includes(log?.type)`. */
  predicate Selected(log: Record, selected: seq<Value>)
  {
    TypeOf(log).Some? && TypeOf(log).value in selected
  }

  /** Selected, and, for WRONG_DIRECTION, a confidence percentage above 25. */
  predicate Eligible(log: Record, selected: seq<Value>)
  {
    Selected(log, selected) &&
    (IsType(log, "WRONG_DIRECTION") ==>
      var p := ConfidencePercent(log); p.Some? && p.value > 25.0)
  }

  /** `t.toUpperCase() === "NULL"`: no other code point upper-cases to N, U or L. */
  predicate IsNullWord(t: string)
  {
    |t| == 4 && (t[0] == 'n' || t[0] == 'N') && (t[1] == 'u' || t[1] == 'U') &&
    (t[2] == 'l' || t[2] == 'L') && (t[3] == 'l' || t[3] == 'L')
  }

  function TrackId(log: Record): Option<Value>
  {
    Coalesce(Get(log, "track_id"), Field(Get(log, "data"), "track_id"))
  }

  /** The trimmed text, or "" when the text is not a string. */
  function NormalizedText(log: Record): string
  {
    var raw := Coalesce(Get(log, "text"), Field(Get(log, "data"), "text"));
    if raw.Some? && raw.value.Str? then Trim(raw.value.s) else ""
  }

  predicate HasValidText(log: Record)
  {
    var t := NormalizedText(log);
    |t| > 0 && !IsNullWord(t)
  }

  /** The parts of the `type::trackId::text` key. */
  datatype DedupKey = DedupKey(kind: Value, track: Value, text: string)

  /** The dedup key; `None` when the entry bypasses deduplication (falsy track id or no usable text). */
  function KeyOf(log: Record): (k: Option<DedupKey>)
    ensures k.None? <==> !Present(TrackId(log)) || !HasValidText(log)
  {
    if !Present(TrackId(log)) || !HasValidText(log) then None
    else
      var kind := if Present(TypeOf(log)) then TypeOf(log).value else Str("UNKNOWN");
      Some(DedupKey(kind, TrackId(log).value, NormalizedText(log)))
  }

  /** Eligible SPEEDING entries in `logs`. */
  function SpeedingCount(logs: seq<Record>, selected: seq<Value>): nat
  {
    if logs == [] then 0
    else
      var log := logs[|logs| - 1];
      SpeedingCount(logs[..|logs| - 1], selected) +
      if Eligible(log, selected) && IsType(log, "SPEEDING") then 1 else 0
  }

  /** Eligible non-SPEEDING entries in `logs` whose dedup key is `k`. */
  function KeyCount(logs: seq<Record>, selected: seq<Value>, k: DedupKey): nat
  {
    if logs == [] then 0
    else
      var log := logs[|logs| - 1];
      KeyCount(logs[..|logs| - 1], selected, k) +
      if Eligible(log, selected) && !IsType(log, "SPEEDING") && KeyOf(log) == Some(k) then 1 else 0
  }

  /**
   * Whether `log`, coming after `earlier`, is shown: it is eligible, and it
   * is one of the first two eligible SPEEDING entries, or it bypasses
   * deduplication, or it is one of the first two eligible entries with its key.
   */
  predicate Kept(earlier: seq<Record>, log: Record, selected: seq<Value>)
  {
    Eligible(log, selected) &&
    if IsType(log, "SPEEDING") then SpeedingCount(earlier, selected) < 2
    else KeyOf(log).None? || KeyCount(earlier, selected, KeyOf(log).value) < 2
  }

  function KeepAll(logs: seq<Record>, selected: seq<Value>): seq<Record>
  {
    if logs == [] then []
    else
      var earlier := logs[..|logs| - 1];
      KeepAll(earlier, selected) + if Kept(earlier, logs[|logs| - 1], selected) then [logs[|logs| - 1]] else []
  }

  /** The `filteredLogs` value: nothing when no category is selected. */
  function Filtered(logs: seq<Record>, selected: seq<Value>): seq<Record>
  {
    if |selected| == 0 then [] else KeepAll(logs, selected)
  }

  /** One more entry: how the kept list and the SPEEDING counter move. */
  lemma KeepStep(logs: seq<Record>, i: nat, selected: seq<Value>)
    requires i < |logs|
    ensures KeepAll(logs[..i + 1], selected) ==
      KeepAll(logs[..i], selected) + if Kept(logs[..i], logs[i], selected) then [logs[i]] else []
    ensures SpeedingCount(logs[..i + 1], selected) ==
      SpeedingCount(logs[..i], selected) + if Eligible(logs[i], selected) && IsType(logs[i], "SPEEDING") then 1 else 0
  {
    assert logs[..i + 1][..i] == logs[..i];
  }

  /** `seenByVehicleEvent.get(key) || 0`. */
  function SeenCount(seen: map<DedupKey, nat>, k: DedupKey): nat
  {
    if k in seen then seen[k] else 0
  }

  /** The counter map holds, per key, the number of earlier eligible keyed entries, capped at 2. */
  ghost predicate SeenMatches(seen: map<DedupKey, nat>, earlier: seq<Record>, selected: seq<Value>)
  {
    forall k :: SeenCount(seen, k) == Min(2, KeyCount(earlier, selected, k))
  }

  /** One more entry: the counter map is bumped exactly for a counted keyed entry below the cap. */
  lemma SeenStep(seen: map<DedupKey, nat>, logs: seq<Record>, i: nat, selected: seq<Value>)
    requires i < |logs| && SeenMatches(seen, logs[..i], selected)
    ensures !(Eligible(logs[i], selected) && !IsType(logs[i], "SPEEDING") && KeyOf(logs[i]).Some?) ==>
      SeenMatches(seen, logs[..i + 1], selected)
    ensures Eligible(logs[i], selected) && !IsType(logs[i], "SPEEDING") && KeyOf(logs[i]).Some? ==>
      var k := KeyOf(logs[i]).value;
      (SeenCount(seen, k) < 2 <==> KeyCount(logs[..i], selected, k) < 2) &&
      (SeenCount(seen, k) < 2 ==> SeenMatches(seen[k := SeenCount(seen, k) + 1], logs[..i + 1], selected)) &&
      (SeenCount(seen, k) >= 2 ==> SeenMatches(seen, logs[..i + 1], selected))
  {
    assert logs[..i + 1][..i] == logs[..i];
    var counted := Eligible(logs[i], selected) && !IsType(logs[i], "SPEEDING") && KeyOf(logs[i]).Some?;
    if counted {
      var key := KeyOf(logs[i]).value;
      var c := SeenCount(seen, key);
      assert c == Min(2, KeyCount(logs[..i], selected, key));
      if c < 2 {
        var seen' := seen[key := c + 1];
        forall k ensures SeenCount(seen', k) == Min(2, KeyCount(logs[..i + 1], selected, k)) {
          assert SeenCount(seen, k) == Min(2, KeyCount(logs[..i], selected, k));
        }
      } else {
        forall k ensures SeenCount(seen, k) == Min(2, KeyCount(logs[..i + 1], selected, k)) {
          assert SeenCount(seen, k) == Min(2, KeyCount(logs[..i], selected, k));
        }
      }
    } else {
      forall k ensures SeenCount(seen, k) == Min(2, KeyCount(logs[..i + 1], selected, k)) {
        assert SeenCount(seen, k) == Min(2, KeyCount(logs[..i], selected, k));
      }
    }
  }

  /** The `filteredLogs` pass: one scan with a SPEEDING counter and a per-key counter map. */
  method FilteredLogs(logs: seq<Record>, selected: seq<Value>) returns (r: seq<Record>)
    ensures r == Filtered(logs, selected)
  {
    if |selected| == 0 {
      return [];
    }
    var seenByVehicleEvent: map<DedupKey, nat> := map[];
    var speedingVisibleCount := 0;
    r := [];
    var i := 0;
    while i < |logs|
      invariant 0 <= i <= |logs|
      invariant r == KeepAll(logs[..i], selected)
      invariant speedingVisibleCount == Min(2, SpeedingCount(logs[..i], selected))
      invariant SeenMatches(seenByVehicleEvent, logs[..i], selected)
    {
      var log := logs[i];
      KeepStep(logs, i, selected);
      SeenStep(seenByVehicleEvent, logs, i, selected);
      if !Eligible(log, selected) {
        // dropped: not selected, or a low-confidence WRONG_DIRECTION
      } else if IsType(log, "SPEEDING") {
        if speedingVisibleCount < 2 {
          speedingVisibleCount := speedingVisibleCount + 1;
          r := r + [log];
        }
      } else if KeyOf(log).None? {
        r := r + [log];
      } else {
        var key := KeyOf(log).value;
        var count := SeenCount(seenByVehicleEvent, key);
        if count < 2 {
          seenByVehicleEvent := seenByVehicleEvent[key := count + 1];
          r := r + [log];
        }
      }
      i := i + 1;
    }
    assert logs[..i] == logs;
  }

  /** `s` is `t` with some elements removed, order kept. */
  predicate IsSubsequence<T(==)>(s: seq<T>, t: seq<T>)
  {
    if s == [] then true
    else if t == [] then false
    else if s[|s| - 1] == t[|t| - 1] then IsSubsequence(s[..|s| - 1], t[..|t| - 1])
    else IsSubsequence(s, t[..|t| - 1])
  }

  lemma {:induction false} SubsequenceExtend<T>(s: seq<T>, t: seq<T>, x: T)
    requires IsSubsequence(s, t)
    ensures IsSubsequence(s, t + [x])
    decreases |t|, 1
  {
    assert (t + [x])[..|t|] == t;
    if s != [] && s[|s| - 1] == x {
      SubsequenceShorter(s, t);
    }
  }

  lemma {:induction false} SubsequenceShorter<T>(s: seq<T>, t: seq<T>)
    requires s != [] && IsSubsequence(s, t)
    ensures IsSubsequence(s[..|s| - 1], t)
    decreases |t|, 0
  {
    if s[|s| - 1] == t[|t| - 1] {
      if |s| > 1 {
        SubsequenceShorter(s[..|s| - 1], t[..|t| - 1]);
      }
      SubsequenceExtend(s[..|s| - 1], t[..|t| - 1], t[|t| - 1]);
      assert t[..|t| - 1] + [t[|t| - 1]] == t;
    } else {
      SubsequenceShorter(s, t[..|t| - 1]);
      SubsequenceExtend(s[..|s| - 1], t[..|t| - 1], t[|t| - 1]);
      assert t[..|t| - 1] + [t[|t| - 1]] == t;
    }
  }

  /**
   * The shown list is an order-preserving subsequence of the visible log,
   * and every shown entry is eligible: its category is selected and a
   * shown WRONG_DIRECTION entry has confidence above 25 %.
   */
  lemma {:induction false} FilteredIsSubsequence(logs: seq<Record>, selected: seq<Value>)
    ensures IsSubsequence(Filtered(logs, selected), logs)
    ensures forall i :: 0 <= i < |Filtered(logs, selected)| ==> Eligible(Filtered(logs, selected)[i], selected)
  {
    if |selected| > 0 {
      KeepAllIsSubsequence(logs, selected);
    }
  }

  lemma {:induction false} KeepAllIsSubsequence(logs: seq<Record>, selected: seq<Value>)
    ensures IsSubsequence(KeepAll(logs, selected), logs)
    ensures forall i :: 0 <= i < |KeepAll(logs, selected)| ==> Eligible(KeepAll(logs, selected)[i], selected)
  {
    if logs != [] {
      var earlier := logs[..|logs| - 1];
      var last := logs[|logs| - 1];
      KeepAllIsSubsequence(earlier, selected);
      assert earlier + [last] == logs;
      var k := KeepAll(earlier, selected);
      if Kept(earlier, last, selected) {
        assert KeepAll(logs, selected) == k + [last];
        assert (k + [last])[..|k|] == k;
      } else {
        assert KeepAll(logs, selected) == k;
        SubsequenceExtend(k, earlier, last);
      }
    }
  }

  /** How many SPEEDING entries a list holds. */
  function CountSpeeding(logs: seq<Record>): nat
  {
    if logs == [] then 0
    else CountSpeeding(logs[..|logs| - 1]) + if IsType(logs[|logs| - 1], "SPEEDING") then 1 else 0
  }

  lemma CountSpeedingAppend(a: seq<Record>, x: Record)
    ensures CountSpeeding(a + [x]) == CountSpeeding(a) + if IsType(x, "SPEEDING") then 1 else 0
  {
    assert (a + [x])[..|a|] == a;
  }

  /** At most two SPEEDING rows are shown: as many as there are eligible ones, capped at 2. */
  lemma {:induction false} SpeedingCapped(logs: seq<Record>, selected: seq<Value>)
    requires |selected| > 0
    ensures CountSpeeding(Filtered(logs, selected)) == Min(2, SpeedingCount(logs, selected))
  {
    KeepAllSpeeding(logs, selected);
  }

  lemma {:induction false} KeepAllSpeeding(logs: seq<Record>, selected: seq<Value>)
    ensures CountSpeeding(KeepAll(logs, selected)) == Min(2, SpeedingCount(logs, selected))
  {
    if logs != [] {
      var earlier := logs[..|logs| - 1];
      var last := logs[|logs| - 1];
      KeepAllSpeeding(earlier, selected);
      var k := KeepAll(earlier, selected);
      assert SpeedingCount(logs, selected) ==
        SpeedingCount(earlier, selected) + if Eligible(last, selected) && IsType(last, "SPEEDING") then 1 else 0;
      if Kept(earlier, last, selected) {
        assert KeepAll(logs, selected) == k + [last];
        CountSpeedingAppend(k, last);
      } else {
        assert KeepAll(logs, selected) == k;
      }
    }
  }

  /** How many entries of a list carry dedup key `key` (SPEEDING entries have no key in the filter). */
  function CountKey(logs: seq<Record>, key: DedupKey): nat
  {
    if logs == [] then 0
    else
      var log := logs[|logs| - 1];
      CountKey(logs[..|logs| - 1], key) + if !IsType(log, "SPEEDING") && KeyOf(log) == Some(key) then 1 else 0
  }

  lemma CountKeyAppend(a: seq<Record>, x: Record, key: DedupKey)
    ensures CountKey(a + [x], key) == CountKey(a, key) + if !IsType(x, "SPEEDING") && KeyOf(x) == Some(key) then 1 else 0
  {
    assert (a + [x])[..|a|] == a;
  }

  /** For every `type::track::text` key at most two rows are shown: the eligible ones, capped at 2. */
  lemma {:induction false} KeyCapped(logs: seq<Record>, selected: seq<Value>, key: DedupKey)
    requires |selected| > 0
    ensures CountKey(Filtered(logs, selected), key) == Min(2, KeyCount(logs, selected, key))
  {
    KeepAllKey(logs, selected, key);
  }

  lemma {:induction false} KeepAllKey(logs: seq<Record>, selected: seq<Value>, key: DedupKey)
    ensures CountKey(KeepAll(logs, selected), key) == Min(2, KeyCount(logs, selected, key))
  {
    if logs != [] {
      var earlier := logs[..|logs| - 1];
      var last := logs[|logs| - 1];
      KeepAllKey(earlier, selected, key);
      var k := KeepAll(earlier, selected);
      assert KeyCount(logs, selected, key) == KeyCount(earlier, selected, key) +
        if Eligible(last, selected) && !IsType(last, "SPEEDING") && KeyOf(last) == Some(key) then 1 else 0;
      if Kept(earlier, last, selected) {
        assert KeepAll(logs, selected) == k + [last];
        CountKeyAppend(k, last, key);
      } else {
        assert KeepAll(logs, selected) == k;
      }
    }
  }

  /**
   * The rows shown from `logs + [log]` are those shown from `logs`, then
   * `log` exactly when it is kept: so an eligible non-SPEEDING entry that
   * bypasses deduplication is always shown, and an entry with a key is
   * shown exactly when fewer than two earlier eligible entries share it.
   */
  lemma FilteredStep(logs: seq<Record>, log: Record, selected: seq<Value>)
    requires |selected| > 0
    ensures Filtered(logs + [log], selected) ==
      Filtered(logs, selected) + if Kept(logs, log, selected) then [log] else []
    ensures Eligible(log, selected) && !IsType(log, "SPEEDING") && KeyOf(log).None? ==> Kept(logs, log, selected)
  {
    assert (logs + [log])[..|logs|] == logs;
  }

  // ------------------------------------------------------ category list

  /** Truthy `type` values of `logs`, in log order. */
  function TruthyTypes(logs: seq<Record>): (r: seq<Value>)
    ensures forall v :: v in r <==> exists i :: 0 <= i < |logs| && TypeOf(logs[i]) == Some(v) && Truthy(v)
  {
    if logs == [] then []
    else
      var t := TypeOf(logs[|logs| - 1]);
      var r := TruthyTypes(logs[..|logs| - 1]) + if Present(t) then [t.value] else [];
      assert forall i :: 0 <= i < |logs| - 1 ==> logs[..|logs| - 1][i] == logs[i];
      r
  }

  /** The collected types keep the log's order: collecting from two parts concatenates the results. */
  lemma {:induction false} TruthyTypesAppend(a: seq<Record>, b: seq<Record>)
    ensures TruthyTypes(a + b) == TruthyTypes(a) + TruthyTypes(b)
  {
    if b == [] {
      assert a + b == a;
    } else {
      var ab := a + b;
      assert ab[..|ab| - 1] == a + b[..|b| - 1];
      assert ab[|ab| - 1] == b[|b| - 1];
      TruthyTypesAppend(a, b[..|b| - 1]);
    }
  }

  /** One log contributes its `type` when that is truthy, and nothing otherwise. */
  lemma TruthyTypesOne(log: Record)
    ensures TruthyTypes([log]) == if Present(TypeOf(log)) then [TypeOf(log).value] else []
  {
    assert [log][..0] == [];
  }

  /** The index of the first occurrence of `v` in `s`. */
  function FirstIndex(s: seq<Value>, v: Value): (k: nat)
    requires v in s
    ensures k < |s| && s[k] == v && forall i :: 0 <= i < k ==> s[i] != v
  {
    if s[0] == v then 0 else 1 + FirstIndex(s[1..], v)
  }

  /** Appending does not move a first occurrence that is already there. */
  lemma FirstIndexPrefix(a: seq<Value>, b: seq<Value>, v: Value)
    requires v in a
    ensures FirstIndex(a + b, v) == FirstIndex(a, v)
  {
    var k, k' := FirstIndex(a, v), FirstIndex(a + b, v);
    assert (a + b)[k] == v;
    assert k' <= k;
    assert a[k'] == v;
  }

  /** A value new to `b` first occurs in `a + b` at its first index in `b`, shifted by `|a|`. */
  lemma FirstIndexSuffix(a: seq<Value>, b: seq<Value>, v: Value)
    requires v !in a && v in b
    ensures FirstIndex(a + b, v) == |a| + FirstIndex(b, v)
  {
    var k, k' := FirstIndex(b, v), FirstIndex(a + b, v);
    assert (a + b)[|a| + k] == v;
    forall i | 0 <= i < |a| + k ensures (a + b)[i] != v {
      if i < |a| {
        assert (a + b)[i] == a[i];
      } else {
        assert (a + b)[i] == b[i - |a|];
      }
    }
  }

  /** `Array.from(new Set(s))`: the same members, without duplicates. */
  function Distinct(s: seq<Value>): (r: seq<Value>)
    ensures forall v :: v in r <==> v in s
    ensures forall i, j :: 0 <= i < j < |r| ==> r[i] != r[j]
  {
    if s == [] then []
    else
      var d := Distinct(s[..|s| - 1]);
      assert forall v :: v in s <==> v in s[..|s| - 1] || v == s[|s| - 1];
      if s[|s| - 1] in d then d else d + [s[|s| - 1]]
  }

  /** The members of `r`, all of which occur in `s`, come in the order of their first occurrence in `s`. */
  ghost predicate FirstSeenOrder(s: seq<Value>, r: seq<Value>)
    requires forall v :: v in r ==> v in s
  {
    forall i, j :: 0 <= i < j < |r| ==> FirstIndex(s, r[i]) < FirstIndex(s, r[j])
  }

  /** First occurrences only: the values come in the order in which they first occur in `s`. */
  lemma {:induction false} DistinctFirstSeenOrder(s: seq<Value>)
    ensures FirstSeenOrder(s, Distinct(s))
  {
    if s != [] {
      var p, x := s[..|s| - 1], s[|s| - 1];
      DistinctFirstSeenOrder(p);
      var d := Distinct(p);
      assert s == p + [x];
      forall i | 0 <= i < |d| ensures FirstIndex(s, d[i]) == FirstIndex(p, d[i]) {
        FirstIndexPrefix(p, [x], d[i]);
      }
      forall i | 0 <= i < |d| ensures FirstIndex(s, d[i]) < |p| {
        assert d[i] in p;
      }
      var r := Distinct(s);
      assert s[..|s| - 1] == p;
      if x !in d {
        FirstIndexSuffix(p, [x], x);
        assert r == d + [x];
        assert FirstIndex(s, x) == |p|;
      } else {
        assert r == d;
        forall i, j | 0 <= i < j < |r| ensures FirstIndex(s, r[i]) < FirstIndex(s, r[j]) {
          assert FirstIndex(p, d[i]) < FirstIndex(p, d[j]);
        }
      }
    }
  }

  lemma {:induction false} DistinctPrefix(a: seq<Value>, b: seq<Value>)
    ensures |Distinct(a + b)| >= |Distinct(a)|
    ensures Distinct(a + b)[..|Distinct(a)|] == Distinct(a)
  {
    if b != [] {
      var ab := a + b;
      assert ab[..|ab| - 1] == a + b[..|b| - 1];
      DistinctPrefix(a, b[..|b| - 1]);
    } else {
      assert a + b == a;
    }
  }

  lemma DistinctFresh(s: seq<Value>, x: Value)
    requires Distinct(s) == s && x !in s
    ensures Distinct(s + [x]) == s + [x]
  {
    assert (s + [x])[..|s|] == s;
  }

  lemma DistinctKnownTypes()
    ensures Distinct(KnownTypes) == KnownTypes
  {
    var k := KnownTypes;
    DistinctFresh([], k[0]);
    assert [] + [k[0]] == k[..1];
    DistinctFresh(k[..1], k[1]);
    assert k[..1] + [k[1]] == k[..2];
    DistinctFresh(k[..2], k[2]);
    assert k[..2] + [k[2]] == k[..3];
    DistinctFresh(k[..3], k[3]);
    assert k[..3] + [k[3]] == k;
  }

  /** `availableTypes`: the known categories, then every new truthy category seen in the log. */
  function AvailableTypes(logs: seq<Record>): seq<Value>
  {
    Distinct(KnownTypes + TruthyTypes(logs))
  }

  /**
   * The offered categories start with the four known ones in order, hold
   * no duplicates, and are exactly the known ones plus the truthy `type`
   * values that occur in the log.
   */
  lemma AvailableTypesShape(logs: seq<Record>)
    ensures var r := AvailableTypes(logs);
      |r| >= 4 && r[..4] == KnownTypes &&
      (forall i, j :: 0 <= i < j < |r| ==> r[i] != r[j]) &&
      (forall v :: v in r <==> v in KnownTypes || exists i :: 0 <= i < |logs| && TypeOf(logs[i]) == Some(v) && Truthy(v))
    ensures var r := AvailableTypes(logs); var t := TruthyTypes(logs);
      (forall i :: 4 <= i < |r| ==> r[i] !in KnownTypes && r[i] in t) &&
      (forall i, j :: 4 <= i < j < |r| ==> FirstIndex(t, r[i]) < FirstIndex(t, r[j]))
  {
    DistinctKnownTypes();
    var t := TruthyTypes(logs);
    DistinctPrefix(KnownTypes, t);
    var r := AvailableTypes(logs);
    forall i | 4 <= i < |r| ensures r[i] !in KnownTypes && r[i] in t {
      forall k | 0 <= k < 4 ensures KnownTypes[k] != r[i] {
        assert r[..4][k] == r[k];
      }
      assert r[i] in KnownTypes + t;
    }
    DistinctFirstSeenOrder(KnownTypes + t);
    forall i, j | 4 <= i < j < |r| ensures FirstIndex(t, r[i]) < FirstIndex(t, r[j]) {
      FirstIndexSuffix(KnownTypes, t, r[i]);
      FirstIndexSuffix(KnownTypes, t, r[j]);
    }
  }

  // ---------------------------------------------------------- selection

  function Remove(s: seq<Value>, t: Value): (r: seq<Value>)
    ensures forall v :: v in r <==> v in s && v != t
  {
    if s == [] then []
    else
      assert forall v :: v in s <==> v in s[..|s| - 1] || v == s[|s| - 1];
      Remove(s[..|s| - 1], t) + if s[|s| - 1] == t then [] else [s[|s| - 1]]
  }

  /** `toggleType(type)`: drop a selected category, or append an unselected one. */
  function ToggleType(selected: seq<Value>, t: Value): (r: seq<Value>)
    ensures t in r <==> t !in selected
    ensures forall v :: v != t ==> (v in r <==> v in selected)
  {
    if t in selected then Remove(selected, t) else selected + [t]
  }

  lemma {:induction false} RemoveAbsent(s: seq<Value>, t: Value)
    requires t !in s
    ensures Remove(s, t) == s
  {
    if s != [] {
      RemoveAbsent(s[..|s| - 1], t);
      assert s[..|s| - 1] + [s[|s| - 1]] == s;
    }
  }

  /**
   * Toggling an unselected category twice restores the selection exactly;
   * toggling any category twice restores the set of selected categories.
   */
  lemma ToggleTwice(selected: seq<Value>, t: Value)
    ensures t !in selected ==> ToggleType(ToggleType(selected, t), t) == selected
    ensures forall v :: v in ToggleType(ToggleType(selected, t), t) <==> v in selected
  {
    if t !in selected {
      var once := selected + [t];
      assert once[..|once| - 1] == selected;
      RemoveAbsent(selected, t);
    }
  }

  // ------------------------------------------------------ relative time

  datatype RelativeLabel = Dash | MinsAgo(mins: nat) | NaNMinsAgo

  /** `formatRelativeMins(tsMs, nowMs)` before rendering. */
  function FormatRelativeMins(tsMs: Option<Value>, nowMs: int): (r: RelativeLabel)
    ensures !Present(tsMs) <==> r.Dash?
    ensures (Present(tsMs) && ToNumber(tsMs.value).Some?) <==> r.MinsAgo?
    ensures r.MinsAgo? ==> (tsMs.Some? && ToNumber(tsMs.value).Some? &&
      var t := ToNumber(tsMs.value).value;
      var diff := if nowMs as real - t > 0.0 then nowMs as real - t else 0.0;
      (r.mins * 60000) as real <= diff < ((r.mins + 1) * 60000) as real)
  {
    if !Present(tsMs) then Dash
    else
      var t := ToNumber(tsMs.value);
      if t.None? then NaNMinsAgo
      else
        var diffMs := if nowMs as real - t.value > 0.0 then nowMs as real - t.value else 0.0;
        MinsAgo((diffMs / 60000.0).Floor)
  }

  /** The text shown for a label. */
  function RenderRelative(l: RelativeLabel): string
  {
    match l
    case Dash => "\U{2014}"
    case MinsAgo(m) => DecimalString(m) + " min ago"
    case NaNMinsAgo => "NaN min ago"
  }

  /** A timestamp in the future shows "0 min ago"; one exactly a minute old shows "1 min ago". */
  lemma RelativeExamples(nowMs: int)
    requires nowMs >= 0
    ensures RenderRelative(FormatRelativeMins(Some(Num(nowMs as real + 5000.0)), nowMs)) == "0 min ago"
    ensures nowMs != 60000 ==> RenderRelative(FormatRelativeMins(Some(Num((nowMs - 60000) as real)), nowMs)) == "1 min ago"
  {
    assert FormatRelativeMins(Some(Num(nowMs as real + 5000.0)), nowMs) == MinsAgo(0);
    if nowMs != 60000 {
      assert FormatRelativeMins(Some(Num((nowMs - 60000) as real)), nowMs) == MinsAgo(1);
    }
    assert DecimalString(0) == "0";
    assert DecimalString(1) == "1";
  }
}
