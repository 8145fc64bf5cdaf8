/**
 `KeyValueAggregator`: the same flush loop over a table of per-key sums.  The table keeps
 a dictionary's insertion order, because that order is the order of a dispatched batch.
 */
module KeyValueAggregator {
  import opened BufferAggregator

  type Table<K> = seq<(K, int)>

  /** `increments` is every increment ever made, `log` every dispatched batch. */
  datatype KvState<K> = KvState(table: Table<K>, event: bool, pc: Pc, increments: seq<(K, int)>, log: seq<Table<K>>)

  datatype KvAction<K> =
    | Increment(key: K, amount: int)
    | KvWake
    | KvClear
    | KvSwap
    | KvCallbackEnds
    | KvManualFlush
    | KvCancel
    | KvFinalFlush
    | KvStart

  /** `d[key] = d.get(key, 0) + amount`: in place for a known key, at the end for a new one. */
  function Bump<K(==)>(t: Table<K>, key: K, amount: int): Table<K> {
    if t == [] then [(key, amount)]
    else if t[0].0 == key then [(key, t[0].1 + amount)] + t[1..]
    else [t[0]] + Bump(t[1..], key, amount)
  }

  function Incremented<K(==)>(threshold: int, s: KvState<K>, key: K, amount: int): KvState<K> {
    var t := Bump(s.table, key, amount);
    s.(table := t, event := s.event || |t| >= threshold, increments := s.increments + [(key, amount)])
  }

  function KvSwapped<K>(s: KvState<K>): KvState<K> {
    if s.table == [] then s else s.(table := [], log := s.log + [s.table])
  }

  predicate KvEnabled<K>(s: KvState<K>, a: KvAction<K>) {
    match a
    case Increment(_, _) => true
    case KvWake => s.pc.Waiting?
    case KvClear => s.pc.Woken?
    case KvSwap => s.pc.Cleared?
    case KvCallbackEnds => s.pc.Dispatching?
    case KvManualFlush => true
    case KvCancel => s.pc.Waiting? || s.pc.Woken? || s.pc.Dispatching?
    case KvFinalFlush => s.pc.Stopping? || s.pc.Stopped?
    case KvStart => s.pc.Stopped?
  }

  function KvApply<K(==)>(threshold: int, s: KvState<K>, a: KvAction<K>): KvState<K>
    requires KvEnabled(s, a)
  {
    match a
    case Increment(key, amount) => Incremented(threshold, s, key, amount)
    case KvWake => s.(pc := Woken)
    case KvClear => s.(event := false, pc := Cleared)
    case KvSwap => KvSwapped(s).(pc := if s.table == [] then Waiting else Dispatching)
    case KvCallbackEnds => s.(pc := Waiting)
    case KvManualFlush => KvSwapped(s)
    case KvCancel => s.(pc := Stopping)
    case KvFinalFlush => KvSwapped(s).(pc := Stopped)
    case KvStart => s.(pc := Waiting)
  }

  ghost predicate IsKvRun<K>(threshold: int, acts: seq<KvAction<K>>)
    decreases |acts|, 0
  {
    acts == [] ||
    (IsKvRun(threshold, acts[..|acts| - 1]) && KvEnabled(AfterKv(threshold, acts[..|acts| - 1]), acts[|acts| - 1]))
  }

  ghost function AfterKv<K>(threshold: int, acts: seq<KvAction<K>>): KvState<K>
    requires IsKvRun(threshold, acts)
    decreases |acts|, 1
  {
    if acts == [] then KvState([], false, Stopped, [], [])
    else KvApply(threshold, AfterKv(threshold, acts[..|acts| - 1]), acts[|acts| - 1])
  }

  // ---------------------------------------------------------------- sums

  /** The amounts recorded for one key. */
  function Sum<K(==)>(t: seq<(K, int)>, key: K): int {
    if t == [] then 0 else (if t[0].0 == key then t[0].1 else 0) + Sum(t[1..], key)
  }

  function SumAll<K(==)>(log: seq<Table<K>>, key: K): int {
    if log == [] then 0 else SumAll(log[..|log| - 1], key) + Sum(log[|log| - 1], key)
  }

  ghost predicate DistinctKeys<K>(t: Table<K>) {
    forall i, j :: 0 <= i < j < |t| ==> t[i].0 != t[j].0
  }

  lemma {:induction false} SumConcat<K>(a: seq<(K, int)>, b: seq<(K, int)>, key: K)
    ensures Sum(a + b, key) == Sum(a, key) + Sum(b, key)
  {
    if a == [] {
      assert a + b == b;
    } else {
      SumConcat(a[1..], b, key);
      assert (a + b)[1..] == a[1..] + b;
    }
  }

  lemma {:induction false} BumpAddsOnce<K>(t: Table<K>, key: K, amount: int, other: K)
    ensures Sum(Bump(t, key, amount), other) == Sum(t, other) + if other == key then amount else 0
  {
    if t != [] && t[0].0 != key {
      BumpAddsOnce(t[1..], key, amount, other);
      assert Bump(t, key, amount)[1..] == Bump(t[1..], key, amount);
    } else if t != [] {
      assert Bump(t, key, amount)[1..] == t[1..];
    }
  }

  lemma {:induction false} BumpKeepsKeysDistinct<K>(t: Table<K>, key: K, amount: int)
    requires DistinctKeys(t)
    ensures DistinctKeys(Bump(t, key, amount))
    ensures forall k :: 0 <= k < |Bump(t, key, amount)| ==>
              Bump(t, key, amount)[k].0 == key || exists i :: 0 <= i < |t| && t[i].0 == Bump(t, key, amount)[k].0
  {
    var b := Bump(t, key, amount);
    if t == [] {
    } else if t[0].0 == key {
      assert forall k :: 0 <= k < |b| ==> b[k].0 == t[k].0;
    } else {
      BumpKeepsKeysDistinct(t[1..], key, amount);
      var rest := Bump(t[1..], key, amount);
      assert b == [t[0]] + rest;
      forall k | 0 <= k < |b|
        ensures b[k].0 == key || exists i :: 0 <= i < |t| && t[i].0 == b[k].0
        ensures k > 0 ==> b[k].0 != t[0].0
      {
        if k > 0 && b[k].0 != key {
          assert b[k] == rest[k - 1];
          var i :| 0 <= i < |t[1..]| && t[1..][i].0 == rest[k - 1].0;
          assert t[i + 1].0 == b[k].0;
        }
      }
    }
  }

  // ---------------------------------------------------------------- the promises

  ghost predicate KvInv<K(!new)>(threshold: int, s: KvState<K>) {
    && (forall key :: Sum(s.increments, key) == SumAll(s.log, key) + Sum(s.table, key))
    && DistinctKeys(s.table)
    && (forall k :: 0 <= k < |s.log| ==> s.log[k] != [] && DistinctKeys(s.log[k]))
    && (s.table != [] && |s.table| >= threshold ==> s.event || s.pc.Cleared?)
  }

  lemma KvStepKeepsInv<K(!new)>(threshold: int, s: KvState<K>, a: KvAction<K>)
    requires KvInv(threshold, s) && KvEnabled(s, a)
    ensures KvInv(threshold, KvApply(threshold, s, a))
  {
    var s' := KvApply(threshold, s, a);
    if a.Increment? {
      BumpKeepsKeysDistinct(s.table, a.key, a.amount);
      forall key
        ensures Sum(s'.increments, key) == SumAll(s'.log, key) + Sum(s'.table, key)
      {
        SumConcat(s.increments, [(a.key, a.amount)], key);
        BumpAddsOnce(s.table, a.key, a.amount, key);
      }
    } else if (a.KvSwap? || a.KvManualFlush? || a.KvFinalFlush?) && s.table != [] {
      assert s'.log[..|s'.log| - 1] == s.log;
    }
  }

  /**
   In every interleaving, for every key: what was ever added is what was dispatched plus
   what is still buffered; a batch names a key at most once; and a loop at its wait with a
   full table behind it has its event set.
   */
  lemma {:induction false} IncrementsConserved<K(!new)>(threshold: int, acts: seq<KvAction<K>>)
    requires IsKvRun(threshold, acts)
    ensures KvInv(threshold, AfterKv(threshold, acts))
  {
    if acts != [] {
      IncrementsConserved(threshold, acts[..|acts| - 1]);
      KvStepKeepsInv(threshold, AfterKv(threshold, acts[..|acts| - 1]), acts[|acts| - 1]);
    }
  }

  /** No lost wake-up: a loop at its wait with a full table behind it has its event set. */
  lemma KvNoLostWakeup<K(!new)>(threshold: int, acts: seq<KvAction<K>>)
    requires IsKvRun(threshold, acts)
    ensures var s := AfterKv(threshold, acts);
            s.pc.Waiting? && s.table != [] && |s.table| >= threshold ==> s.event
  {
    IncrementsConserved(threshold, acts);
  }

  /** After `stop()` every increment ever made is in some batch. */
  lemma StopDispatchesAllIncrements<K(!new)>(threshold: int, acts: seq<KvAction<K>>, key: K)
    requires IsKvRun(threshold, acts) && acts != [] && acts[|acts| - 1].KvFinalFlush?
    ensures var s := AfterKv(threshold, acts);
            Sum(s.increments, key) == SumAll(s.log, key)
  {
    IncrementsConserved(threshold, acts);
  }

  lemma {:induction false} KvPrefixIsRun<K>(threshold: int, acts: seq<KvAction<K>>, m: nat)
    requires m <= |acts| && IsKvRun(threshold, acts)
    ensures IsKvRun(threshold, acts[..m])
    decreases |acts|
  {
    if m == |acts| {
      assert acts[..m] == acts;
    } else {
      KvPrefixIsRun(threshold, acts[..|acts| - 1], m);
      assert acts[..|acts| - 1][..m] == acts[..m];
    }
  }

  /** The k-th action is an increment that left at least `threshold` keys. */
  ghost predicate KvRings<K>(threshold: int, acts: seq<KvAction<K>>, k: nat)
    requires k < |acts| && IsKvRun(threshold, acts)
  {
    KvPrefixIsRun(threshold, acts, k + 1);
    acts[k].Increment? && |AfterKv(threshold, acts[..k + 1]).table| >= threshold
  }

  ghost predicate KvRungSinceClear<K>(threshold: int, acts: seq<KvAction<K>>)
    requires IsKvRun(threshold, acts)
  {
    exists k :: 0 <= k < |acts| && KvRings(threshold, acts, k) && forall j :: k < j < |acts| ==> !acts[j].KvClear?
  }

  lemma KvRungStep<K>(threshold: int, before: seq<KvAction<K>>, a: KvAction<K>)
    requires IsKvRun(threshold, before + [a]) && IsKvRun(threshold, before)
    ensures KvRungSinceClear(threshold, before + [a]) <==>
            KvRings(threshold, before + [a], |before|) || (!a.KvClear? && KvRungSinceClear(threshold, before))
  {
    var all := before + [a];
    forall k | 0 <= k < |before|
      ensures KvRings(threshold, all, k) <==> KvRings(threshold, before, k)
    {
      assert all[..k + 1] == before[..k + 1];
    }
    assert all[|before|] == a && forall j :: 0 <= j < |before| ==> before[j] == all[j];
    if KvRungSinceClear(threshold, all) {
      var k :| 0 <= k < |all| && KvRings(threshold, all, k) && forall j :: k < j < |all| ==> !all[j].KvClear?;
      assert k < |before| ==> KvRings(threshold, before, k);
    }
    if !a.KvClear? && KvRungSinceClear(threshold, before) {
      var k :| 0 <= k < |before| && KvRings(threshold, before, k) && forall j :: k < j < |before| ==> !before[j].KvClear?;
      assert KvRings(threshold, all, k);
    }
  }

  /** The event is set exactly when some increment since the last clear left at least `threshold` keys. */
  lemma {:induction false} KvEventIff<K>(threshold: int, acts: seq<KvAction<K>>)
    requires IsKvRun(threshold, acts)
    ensures AfterKv(threshold, acts).event <==> KvRungSinceClear(threshold, acts)
  {
    if acts != [] {
      var before, a := acts[..|acts| - 1], acts[|acts| - 1];
      assert acts == before + [a];
      KvEventIff(threshold, before);
      KvRungStep(threshold, before, a);
      assert acts[..|before| + 1] == acts;
    }
  }

  // ---------------------------------------------------------------- the object

  /** The object itself; `view` is its place in the step system. */
  class KvAggregator<K(==, !new)> {
    const threshold: int
    var table: Table<K>
    var flushEvent: bool
    ghost var view: KvState<K>

    ghost predicate Valid()
      reads this
    {
      view.table == table && view.event == flushEvent && KvInv(threshold, view)
    }

    constructor (threshold: int)
      ensures Valid() && view == AfterKv(threshold, []) && this.threshold == threshold
    {
      this.threshold := threshold;
      table, flushEvent, view := [], false, KvState([], false, Stopped, [], []);
    }

    /** `add_increment`. */
    method AddIncrement(key: K, amount: int)
      requires Valid()
      modifies this
      ensures Valid()
      ensures view == KvApply(threshold, old(view), Increment(key, amount))
      ensures forall k :: Sum(table, k) == Sum(old(table), k) + if k == key then amount else 0
    {
      KvStepKeepsInv(threshold, view, Increment(key, amount));
      forall k ensures Sum(Bump(table, key, amount), k) == Sum(table, k) + if k == key then amount else 0 {
        BumpAddsOnce(table, key, amount, k);
      }
      table := Bump(table, key, amount);
      if |table| >= threshold {
        flushEvent := true;
      }
      view := Incremented(threshold, view, key, amount);
    }

    /** The swap of `_trigger_flush` as `stop()` runs it: the whole table, or nothing. */
    method FinalFlush() returns (toFlush: Table<K>)
      requires Valid() && KvEnabled(view, KvFinalFlush)
      modifies this`table, this`view
      ensures Valid() && table == [] && toFlush == old(table)
      ensures view == KvApply(threshold, old(view), KvFinalFlush)
      ensures forall k :: Sum(view.increments, k) == SumAll(view.log, k)
    {
      KvStepKeepsInv(threshold, view, KvFinalFlush);
      toFlush := table;
      table := [];
      view := KvApply(threshold, view, KvFinalFlush);
    }
  }
}
