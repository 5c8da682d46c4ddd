/**
 * The durable log store: an IndexedDB object store `logs_v1` with in-line
 * keys at `id` drawn from a key generator, and a non-unique index on `ts_ms`.
 * The model keeps the store's records and the generator's current number;
 * `appendLogs`, `getLogsSince`, `pruneOlderThan` and `clearPersistedLogs`
 * are its four operations, and `normalizeLog` the record clean-up they share
 * with the socket pipeline.
 */
module LogStorage {
  import opened Js
  import opened Seqs

  const TsKey := "ts_ms"
  const IdKey := "id"

  /**
   * `normalizeLog`: a shallow copy of the record whose `ts_ms` is kept when it
   * is a number and otherwise set to the current time.
   */
  function NormalizeLog(log: Value, now: int): (r: Record)
    ensures TsKey in r && r[TsKey].Num?
    ensures r.Keys == Spread(log).Keys + {TsKey}
    ensures forall k :: k in Spread(log) && k != TsKey ==> r[k] == Spread(log)[k]
    ensures GetProp(log, TsKey).Some? && GetProp(log, TsKey).value.Num? ==> r[TsKey] == GetProp(log, TsKey).value
    ensures !(GetProp(log, TsKey).Some? && GetProp(log, TsKey).value.Num?) ==> r[TsKey] == Num(now as real)
  {
    var ts := GetProp(log, TsKey);
    Spread(log)[TsKey := if ts.Some? && ts.value.Num? then ts.value else Num(now as real)]
  }

  /** A normalised record passes through `normalizeLog` unchanged, whatever the clock says. */
  lemma NormalizeLogIdempotent(log: Value, now: int, later: int)
    ensures NormalizeLog(Obj(NormalizeLog(log, now)), later) == NormalizeLog(log, now)
  {
  }

  /** The `ts_ms` index key of a record, if the record is in the index at all. */
  function TsOf(r: Record): (t: Option<real>)
    ensures t.Some? <==> TsKey in r && r[TsKey].Num?
    ensures t.Some? ==> r[TsKey] == Num(t.value)
  {
    if TsKey in r && r[TsKey].Num? then Some(r[TsKey].n) else None
  }

  /** The primary key of a stored record. */
  function PrimaryKey(r: Record): real
  {
    if IdKey in r && r[IdKey].Num? then r[IdKey].n else 0.0
  }

  /** A record as the object store holds it: with a numeric key and an indexed timestamp. */
  predicate Stored(r: Record)
  {
    TsOf(r).Some? && IdKey in r && r[IdKey].Num?
  }

  function KeysOf(s: seq<Record>): set<real>
  {
    set r | r in s :: PrimaryKey(r)
  }

  /** No two records share a primary key. */
  predicate UniqueKeys(s: seq<Record>)
  {
    s == [] || (UniqueKeys(s[..|s| - 1]) && PrimaryKey(s[|s| - 1]) !in KeysOf(s[..|s| - 1]))
  }

  /**
   * The store's invariant: every record has a key and a timestamp, the keys
   * are distinct, and the key generator's current number is above every key
   * (section 2.11 of the W3C Indexed Database API 3.0).
   */
  predicate StoreInv(entries: seq<Record>, nextId: int)
  {
    nextId >= 1 &&
    (forall r | r in entries :: Stored(r) && PrimaryKey(r) < nextId as real) &&
    UniqueKeys(entries)
  }

  // ------------------------------------------------------------ appendLogs

  /** The effect of one `store.add(record)` request. */
  datatype AddStep =
    | Added(entries: seq<Record>, nextId: int)
    | ConstraintError   // the key is already in use: the request fails
    | DataError         // `id` is present but not a valid key: `add` throws

  /**
   * `store.add(r)` with in-line keys and a key generator: a record without
   * `id` receives the generator's current number, which then advances; a
   * record with a numeric `id` keeps it, and an `id` at or above the current
   * number moves the generator past it.
   */
  function AddRecord(entries: seq<Record>, nextId: int, r: Record): (step: AddStep)
    ensures IdKey !in r ==> step == Added(entries + [r[IdKey := Num(nextId as real)]], nextId + 1)
    ensures step.Added? ==> |step.entries| == |entries| + 1 && step.entries[..|entries|] == entries
  {
    if IdKey !in r then Added(entries + [r[IdKey := Num(nextId as real)]], nextId + 1)
    else match r[IdKey]
      case Num(k) =>
        if k in KeysOf(entries) then ConstraintError
        else Added(entries + [r], if k >= nextId as real then k.Floor + 1 else nextId)
      case _ => DataError
  }

  lemma {:induction false} KeysOfAppend(s: seq<Record>, r: Record)
    ensures KeysOf(s + [r]) == KeysOf(s) + {PrimaryKey(r)}
  {
    assert forall x :: x in s + [r] <==> x in s || x == r;
  }

  lemma AddRecordKeepsInv(entries: seq<Record>, nextId: int, r: Record)
    requires StoreInv(entries, nextId)
    requires TsOf(r).Some?
    ensures AddRecord(entries, nextId, r).Added? ==>
      StoreInv(AddRecord(entries, nextId, r).entries, AddRecord(entries, nextId, r).nextId) &&
      AddRecord(entries, nextId, r).nextId >= nextId
  {
    var step := AddRecord(entries, nextId, r);
    if step.Added? {
      var e := step.entries;
      assert e[..|e| - 1] == entries;
      var added := e[|e| - 1];
      assert forall x | x in e :: x in entries || x == added;
      if IdKey in r {
        var k := r[IdKey].n;
        assert k !in KeysOf(entries);
        assert PrimaryKey(added) == k;
        assert k < step.nextId as real;
      } else {
        assert PrimaryKey(added) == nextId as real;
      }
    }
  }

  /** The transaction's requests as queued so far, and whether one of them failed. */
  datatype Pending = Pending(entries: seq<Record>, nextId: int, clashed: bool)

  /**
   * Queue one `add` per record, normalised, in order. A record whose `id` is
   * not a number makes `add` throw: it and every later record are never
   * queued (the second component is then true).
   */
  function Queue(p: Pending, logs: seq<Record>, now: int): (q: (Pending, bool))
    decreases |logs|
  {
    if logs == [] then (p, false)
    else match AddRecord(p.entries, p.nextId, NormalizeLog(Obj(logs[0]), now))
      case Added(e, n) => Queue(Pending(e, n, p.clashed), logs[1..], now)
      case ConstraintError => Queue(p.(clashed := true), logs[1..], now)
      case DataError => (p, true)
  }

  /** The store after an `appendLogs` call, and whether its promise resolved. */
  datatype AppendResult = AppendResult(entries: seq<Record>, nextId: int, ok: bool)

  /**
   * `appendLogs(logs)`: nothing for an empty list; otherwise one readwrite
   * transaction. A failed request aborts the whole transaction, which
   * reverts its records and the generator; a throwing `add` rejects the
   * promise while the requests queued before it still commit.
   */
  function Append(entries: seq<Record>, nextId: int, logs: seq<Record>, now: int): AppendResult
  {
    if logs == [] then AppendResult(entries, nextId, true)
    else
      var (p, threw) := Queue(Pending(entries, nextId, false), logs, now);
      if p.clashed then AppendResult(entries, nextId, false)
      else AppendResult(p.entries, p.nextId, !threw)
  }

  /** A normalised record under the key `id`. */
  function Stamp(l: Record, now: int, id: int): Record
  {
    NormalizeLog(Obj(l), now)[IdKey := Num(id as real)]
  }

  /** Records carrying no `id` of their own are appended in order under consecutive fresh keys. */
  function Stamped(logs: seq<Record>, now: int, firstId: int): seq<Record>
  {
    if logs == [] then []
    else [Stamp(logs[0], now, firstId)] + Stamped(logs[1..], now, firstId + 1)
  }

  /** The `i`-th appended record is the `i`-th of the batch, normalised, under key `firstId + i`. */
  lemma {:induction false} StampedAt(logs: seq<Record>, now: int, firstId: int, i: int)
    requires 0 <= i < |logs|
    ensures |Stamped(logs, now, firstId)| == |logs|
    ensures Stamped(logs, now, firstId)[i] == NormalizeLog(Obj(logs[i]), now)[IdKey := Num((firstId + i) as real)]
  {
    if i > 0 {
      StampedAt(logs[1..], now, firstId + 1, i - 1);
    } else if |logs| > 1 {
      StampedAt(logs[1..], now, firstId + 1, 0);
    }
  }

  predicate NoOwnIds(logs: seq<Record>)
  {
    forall l | l in logs :: IdKey !in l
  }

  /** One step of the queue for a record without its own `id`. */
  lemma QueueStepFresh(p: Pending, logs: seq<Record>, now: int)
    requires logs != [] && IdKey !in logs[0]
    ensures Queue(p, logs, now) ==
      Queue(Pending(p.entries + [Stamp(logs[0], now, p.nextId)], p.nextId + 1, p.clashed), logs[1..], now)
  {
    var r := NormalizeLog(Obj(logs[0]), now);
    assert Spread(Obj(logs[0])) == logs[0];
    assert IdKey !in r;
  }

  lemma {:induction false} QueueFreshIds(p: Pending, logs: seq<Record>, now: int)
    requires NoOwnIds(logs)
    ensures Queue(p, logs, now) ==
      (Pending(p.entries + Stamped(logs, now, p.nextId), p.nextId + |logs|, p.clashed), false)
    decreases |logs|
  {
    if logs == [] {
      assert p.entries + Stamped(logs, now, p.nextId) == p.entries;
    } else {
      assert logs[0] in logs;
      QueueStepFresh(p, logs, now);
      var stamped := Stamp(logs[0], now, p.nextId);
      var p' := Pending(p.entries + [stamped], p.nextId + 1, p.clashed);
      assert NoOwnIds(logs[1..]) by {
        forall l | l in logs[1..] ensures IdKey !in l {
          assert l in logs;
        }
      }
      QueueFreshIds(p', logs[1..], now);
      var tail := Stamped(logs[1..], now, p.nextId + 1);
      assert Stamped(logs, now, p.nextId) == [stamped] + tail;
      assert p.entries + ([stamped] + tail) == (p.entries + [stamped]) + tail;
      assert p'.nextId + |logs[1..]| == p.nextId + |logs|;
    }
  }

  /**
   * The batch the pipeline persists never carries its own ids: every record
   * is appended, normalised, with the next auto-increment key, and the
   * promise resolves.
   */
  lemma AppendFreshIds(entries: seq<Record>, nextId: int, logs: seq<Record>, now: int)
    requires NoOwnIds(logs)
    ensures Append(entries, nextId, logs, now) ==
      AppendResult(entries + Stamped(logs, now, nextId), nextId + |logs|, true)
  {
    if logs != [] {
      QueueFreshIds(Pending(entries, nextId, false), logs, now);
    }
  }

  lemma {:induction false} QueueKeepsInv(p: Pending, logs: seq<Record>, now: int)
    requires StoreInv(p.entries, p.nextId)
    ensures StoreInv(Queue(p, logs, now).0.entries, Queue(p, logs, now).0.nextId)
    ensures Queue(p, logs, now).0.nextId >= p.nextId
    decreases |logs|
  {
    if logs != [] {
      var r := NormalizeLog(Obj(logs[0]), now);
      AddRecordKeepsInv(p.entries, p.nextId, r);
      match AddRecord(p.entries, p.nextId, r)
      case Added(e, n) => QueueKeepsInv(Pending(e, n, p.clashed), logs[1..], now);
      case ConstraintError => QueueKeepsInv(p.(clashed := true), logs[1..], now);
      case DataError =>
    }
  }

  /** Appending, whether it resolves or rejects, keeps the store's invariant and never moves the generator back. */
  lemma AppendKeepsInv(entries: seq<Record>, nextId: int, logs: seq<Record>, now: int)
    requires StoreInv(entries, nextId)
    ensures StoreInv(Append(entries, nextId, logs, now).entries, Append(entries, nextId, logs, now).nextId)
    ensures Append(entries, nextId, logs, now).nextId >= nextId
  {
    if logs != [] {
      QueueKeepsInv(Pending(entries, nextId, false), logs, now);
    }
  }

  lemma {:induction false} QueueOnlyAdds(p: Pending, logs: seq<Record>, now: int)
    ensures |Queue(p, logs, now).0.entries| >= |p.entries|
    ensures Queue(p, logs, now).0.entries[..|p.entries|] == p.entries
    ensures forall i :: |p.entries| <= i < |Queue(p, logs, now).0.entries| ==>
      exists l :: l in logs && Queue(p, logs, now).0.entries[i] - {IdKey} == NormalizeLog(Obj(l), now) - {IdKey}
    decreases |logs|
  {
    if logs != [] {
      var r := NormalizeLog(Obj(logs[0]), now);
      match AddRecord(p.entries, p.nextId, r)
      case Added(e, n) =>
        var p' := Pending(e, n, p.clashed);
        QueueOnlyAdds(p', logs[1..], now);
        var q := Queue(p', logs[1..], now).0.entries;
        assert q[..|p.entries|] == p.entries by {
          assert q[..|e|][..|p.entries|] == e[..|p.entries|];
        }
        forall i | |p.entries| <= i < |q|
          ensures exists l :: l in logs && q[i] - {IdKey} == NormalizeLog(Obj(l), now) - {IdKey}
        {
          if i == |p.entries| {
            assert q[i] == e[i];
            assert e[i] - {IdKey} == r - {IdKey};
            assert logs[0] in logs;
          } else {
            var l :| l in logs[1..] && q[i] - {IdKey} == NormalizeLog(Obj(l), now) - {IdKey};
            assert l in logs;
          }
        }
      case ConstraintError =>
        QueueOnlyAdds(p.(clashed := true), logs[1..], now);
        var q := Queue(p.(clashed := true), logs[1..], now).0.entries;
        forall i | |p.entries| <= i < |q|
          ensures exists l :: l in logs && q[i] - {IdKey} == NormalizeLog(Obj(l), now) - {IdKey}
        {
          var l :| l in logs[1..] && q[i] - {IdKey} == NormalizeLog(Obj(l), now) - {IdKey};
          assert l in logs;
        }
      case DataError =>
    }
  }

  /**
   * Appending adds only the batch's own fields (plus `id` and `ts_ms`): a
   * property absent from every record of the batch and of the store is
   * absent from the store afterwards.
   */
  lemma AppendAddsNoOtherField(entries: seq<Record>, nextId: int, logs: seq<Record>, now: int, key: string)
    requires key != IdKey && key != TsKey
    requires forall l | l in logs :: key !in l
    requires forall r | r in entries :: key !in r
    ensures forall r | r in Append(entries, nextId, logs, now).entries :: key !in r
  {
    if logs != [] {
      var p := Pending(entries, nextId, false);
      QueueOnlyAdds(p, logs, now);
      var q := Queue(p, logs, now).0.entries;
      forall r | r in q ensures key !in r {
        var i :| 0 <= i < |q| && q[i] == r;
        if i < |entries| {
          assert q[..|entries|][i] == r;
        } else {
          var l :| l in logs && q[i] - {IdKey} == NormalizeLog(Obj(l), now) - {IdKey};
          assert key !in NormalizeLog(Obj(l), now);
          assert key !in q[i] - {IdKey};
        }
      }
    }
  }

  // ---------------------------------------------------- getLogsSince

  /** Index order: ascending `ts_ms`, ties broken by ascending primary key. */
  predicate Before(a: Record, b: Record)
  {
    TsOf(a).Some? && TsOf(b).Some? &&
    var ta, tb := TsOf(a).value, TsOf(b).value;
    ta < tb || (ta == tb && PrimaryKey(a) < PrimaryKey(b))
  }

  /** Every record comes no earlier in index order than the one before it. */
  predicate InIndexOrder(s: seq<Record>)
  {
    forall i :: 0 <= i < |s| - 1 ==> !Before(s[i + 1], s[i])
  }

  /** Records whose timestamp is in the key range `IDBKeyRange.lowerBound(minTs)` (inclusive). */
  function InRange(s: seq<Record>, minTs: int): seq<Record>
  {
    if s == [] then []
    else
      var last := s[|s| - 1];
      InRange(s[..|s| - 1], minTs) + if TsOf(last).Some? && TsOf(last).value >= minTs as real then [last] else []
  }

  lemma {:induction false} InRangeMembers(s: seq<Record>, minTs: int)
    ensures forall r :: r in InRange(s, minTs) <==> r in s && TsOf(r).Some? && TsOf(r).value >= minTs as real
  {
    if s != [] {
      InRangeMembers(s[..|s| - 1], minTs);
      assert s == s[..|s| - 1] + [s[|s| - 1]];
    }
  }

  function Insert(s: seq<Record>, x: Record): (r: seq<Record>)
    ensures multiset(r) == multiset(s) + multiset{x}
  {
    if s == [] then [x]
    else if !Before(s[0], x) then [x] + s
    else
      assert s == [s[0]] + s[1..];
      [s[0]] + Insert(s[1..], x)
  }

  /** Putting a record in front keeps index order when it comes no later than the old head. */
  lemma ConsInOrder(a: Record, s: seq<Record>)
    requires InIndexOrder(s) && (s != [] ==> !Before(s[0], a))
    ensures InIndexOrder([a] + s)
  {
    var r := [a] + s;
    forall i | 0 <= i < |r| - 1 ensures !Before(r[i + 1], r[i]) {
      if i > 0 {
        assert r[i] == s[i - 1] && r[i + 1] == s[i];
      }
    }
  }

  lemma TailInOrder(s: seq<Record>)
    requires s != [] && InIndexOrder(s)
    ensures InIndexOrder(s[1..])
  {
    var t := s[1..];
    forall i | 0 <= i < |t| - 1 ensures !Before(t[i + 1], t[i]) {
      assert t[i] == s[i + 1] && t[i + 1] == s[i + 2];
    }
  }

  /** The inserted list starts with the new record or with the old head. */
  lemma InsertHead(s: seq<Record>, x: Record)
    ensures Insert(s, x) != [] && (Insert(s, x)[0] == x || (s != [] && Insert(s, x)[0] == s[0]))
  {
  }

  lemma {:induction false} InsertInOrder(s: seq<Record>, x: Record)
    requires InIndexOrder(s)
    requires TsOf(x).Some? && forall r | r in s :: TsOf(r).Some?
    ensures InIndexOrder(Insert(s, x))
  {
    if s != [] && Before(s[0], x) {
      var t := s[1..];
      assert forall r | r in t :: r in s;
      TailInOrder(s);
      InsertInOrder(t, x);
      InsertHead(t, x);
      var rest := Insert(t, x);
      assert Insert(s, x) == [s[0]] + rest;
      if rest[0] != x {
        assert rest[0] == s[1];
      }
      ConsInOrder(s[0], rest);
    } else {
      ConsInOrder(x, s);
    }
  }

  /** An insertion sort into index order. */
  function SortByIndex(s: seq<Record>): (r: seq<Record>)
    ensures multiset(r) == multiset(s)
  {
    if s == [] then []
    else
      assert s == s[..|s| - 1] + [s[|s| - 1]];
      Insert(SortByIndex(s[..|s| - 1]), s[|s| - 1])
  }

  lemma {:induction false} SortByIndexInOrder(s: seq<Record>)
    requires forall r | r in s :: TsOf(r).Some?
    ensures InIndexOrder(SortByIndex(s))
  {
    if s != [] {
      var init := s[..|s| - 1];
      assert forall r | r in init :: r in s;
      SortByIndexInOrder(init);
      var sorted := SortByIndex(init);
      assert forall r | r in sorted :: r in multiset(init);
      InsertInOrder(sorted, s[|s| - 1]);
    }
  }

  // ---------------------------------------------------- pruneOlderThan

  /** Records the cursor over `IDBKeyRange.upperBound(minTs, true)` does not reach. */
  predicate Survives(r: Record, minTs: int)
  {
    !(TsOf(r).Some? && TsOf(r).value < minTs as real)
  }

  /** The store after deleting every record in the open upper-bound range. */
  function Unpruned(s: seq<Record>, minTs: int): seq<Record>
  {
    if s == [] then []
    else
      var last := s[|s| - 1];
      Unpruned(s[..|s| - 1], minTs) + if Survives(last, minTs) then [last] else []
  }

  /** Pruning deletes exactly the records older than the cutoff: one whose `ts_ms` equals it stays. */
  lemma {:induction false} UnprunedMembers(s: seq<Record>, minTs: int)
    ensures forall r :: r in Unpruned(s, minTs) <==> r in s && Survives(r, minTs)
  {
    if s != [] {
      UnprunedMembers(s[..|s| - 1], minTs);
      assert s == s[..|s| - 1] + [s[|s| - 1]];
    }
  }

  /** Pruning keeps the survivors in their order: it distributes over concatenation. */
  lemma {:induction false} UnprunedAppend(a: seq<Record>, b: seq<Record>, minTs: int)
    ensures Unpruned(a + b, minTs) == Unpruned(a, minTs) + Unpruned(b, minTs)
  {
    if b == [] {
      assert a + b == a;
    } else {
      var b' := b[..|b| - 1];
      UnprunedAppend(a, b', minTs);
      assert (a + b)[..|a + b| - 1] == a + b';
      assert (a + b)[|a + b| - 1] == b[|b| - 1];
    }
  }

  lemma {:induction false} UnprunedKeysWithin(s: seq<Record>, minTs: int)
    requires UniqueKeys(s)
    ensures UniqueKeys(Unpruned(s, minTs)) && KeysOf(Unpruned(s, minTs)) <= KeysOf(s)
  {
    if s != [] {
      var init := s[..|s| - 1];
      var last := s[|s| - 1];
      UnprunedKeysWithin(init, minTs);
      assert s == init + [last];
      KeysOfAppend(init, last);
      var u := Unpruned(init, minTs);
      if Survives(last, minTs) {
        assert Unpruned(s, minTs) == u + [last];
        KeysOfAppend(u, last);
        assert (u + [last])[..|u + [last]| - 1] == u;
        assert PrimaryKey(last) !in KeysOf(u);
      } else {
        assert Unpruned(s, minTs) == u;
      }
    }
  }

  /** Pruning keeps the store's invariant. */
  lemma UnprunedKeepsInv(s: seq<Record>, nextId: int, minTs: int)
    requires StoreInv(s, nextId)
    ensures StoreInv(Unpruned(s, minTs), nextId)
  {
    UnprunedKeysWithin(s, minTs);
    UnprunedMembers(s, minTs);
  }

  // ------------------------------------------------------------ the store

  class LogStore {
    var entries: seq<Record>
    var nextId: int

    ghost predicate Valid()
      reads this
    {
      StoreInv(entries, nextId)
    }

    /** A freshly created object store: no records, generator at 1. */
    constructor ()
      ensures Valid() && entries == [] && nextId == 1
    {
      entries, nextId := [], 1;
    }

    /** `appendLogs(logs)`: one `add` per record in a single transaction. */
    method AppendLogs(logs: seq<Record>, now: int) returns (ok: bool)
      requires Valid()
      modifies this
      ensures Valid()
      ensures var res := Append(old(entries), old(nextId), logs, now);
        entries == res.entries && nextId == res.nextId && ok == res.ok
    {
      AppendKeepsInv(entries, nextId, logs, now);
      if logs == [] {
        return true;
      }
      var p := Pending(entries, nextId, false);
      ghost var start := p;
      var threw := false;
      var i := 0;
      while i < |logs|
        invariant 0 <= i <= |logs|
        invariant Queue(start, logs, now) == Queue(p, logs[i..], now)
        decreases |logs| - i
      {
        assert logs[i..][0] == logs[i] && logs[i..][1..] == logs[i + 1..];
        var step := AddRecord(p.entries, p.nextId, NormalizeLog(Obj(logs[i]), now));
        match step {
          case Added(e, n) =>
            p := Pending(e, n, p.clashed);
          case ConstraintError =>
            p := p.(clashed := true);
          case DataError =>
            threw := true;
            break;
        }
        i := i + 1;
      }
      assert !threw ==> logs[i..] == [];
      if p.clashed {
        ok := false;
      } else {
        entries, nextId := p.entries, p.nextId;
        ok := !threw;
      }
    }

    /**
     * `getLogsSince(minTs)`: the records whose `ts_ms` is at least `minTs`,
     * read through the `ts_ms` index, so in index order.
     */
    function GetLogsSince(minTs: int): (r: seq<Record>)
      reads this
      requires Valid()
      ensures multiset(r) == multiset(InRange(entries, minTs))
      ensures forall x :: x in r <==> x in entries && TsOf(x).Some? && TsOf(x).value >= minTs as real
      ensures InIndexOrder(r)
    {
      var inRange := InRange(entries, minTs);
      InRangeMembers(entries, minTs);
      SortByIndexInOrder(inRange);
      var r := SortByIndex(inRange);
      assert forall x :: x in r <==> x in inRange by {
        forall x ensures x in r <==> x in inRange {
          assert x in r <==> x in multiset(r);
          assert x in inRange <==> x in multiset(inRange);
        }
      }
      r
    }

    /** `pruneOlderThan(minTs)`: delete every record whose `ts_ms` is below `minTs`. */
    method PruneOlderThan(minTs: int)
      requires Valid()
      modifies this
      ensures Valid()
      ensures entries == Unpruned(old(entries), minTs) && nextId == old(nextId)
    {
      UnprunedKeepsInv(entries, nextId, minTs);
      var kept := [];
      var i := 0;
      while i < |entries|
        invariant 0 <= i <= |entries|
        invariant kept == Unpruned(entries[..i], minTs)
      {
        assert entries[..i + 1][..i] == entries[..i];
        if Survives(entries[i], minTs) {
          kept := kept + [entries[i]];
        }
        i := i + 1;
      }
      assert entries[..i] == entries;
      entries := kept;
    }

    /** `clearPersistedLogs`: remove every record; the key generator is not reset. */
    method ClearPersistedLogs()
      requires Valid()
      modifies this
      ensures Valid()
      ensures entries == [] && nextId == old(nextId)
    {
      entries := [];
    }
  }
}
