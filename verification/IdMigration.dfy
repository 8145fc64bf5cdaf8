/**
 The two id migrations: rows keyed by a collection's external id are re-keyed, in place and
 while iterating over a snapshot of the table, to its internal id.

 Both scripts run the same loop and differ in one thing, how they decide what a
 collection id is.  The loop is therefore modelled once, over an arbitrary verdict
 function, and what it promises is proved to hold exactly for verdicts of a certain shape.
 `CollectionIds` then says which of the two scripts' verdicts have that shape.
 */
module IdMigration {
  import opened Options

  type Id = string
  /** The columns a migration carries along without looking at them. */
  type Row = string

  /** The unique key: (catalog, collection id, style id) or (schema, collection id, ref key). */
  datatype Key = Key(catalog: Id, coll: Id, item: Id)
  type Rows = map<Key, Row>

  datatype Verdict = AlreadyInternal | Orphan | Move(to: Id)
  type Judge = Id -> Verdict

  datatype Stats = Stats(total: nat, migrated: nat, alreadyInternal: nat, orphaned: nat, deleted: nat)

  function Target(v: Judge, k: Key): Option<Key> {
    match v(k.coll)
    case Move(to) => Some(k.(coll := to))
    case _ => None
  }

  /** `SELECT ... WHERE catalog_id = c`: every row of the catalog once, in any order. */
  ghost predicate IsSnapshot(rows: Rows, c: Id, order: seq<Key>) {
    && (forall k :: k in order <==> k in rows && k.catalog == c)
    && Distinct(order)
  }

  ghost predicate Distinct(order: seq<Key>) {
    forall i, j :: 0 <= i < j < |order| ==> order[i] != order[j]
  }

  // ---------------------------------------------------------------- the loop as a function

  /** One row in commit mode: delete on collision, re-key otherwise. */
  function CommitRow(v: Judge, rows: Rows, k: Key): Rows {
    match Target(v, k)
    case None => rows
    case Some(t) =>
      if k !in rows then rows
      else if t in rows then rows - {k}
      else (rows - {k})[t := rows[k]]
  }

  /** What one row adds to the counters, given the table it is looked up in. */
  function Counted(v: Judge, rows: Rows, k: Key, s: Stats): Stats {
    match v(k.coll)
    case AlreadyInternal => s.(alreadyInternal := s.alreadyInternal + 1)
    case Orphan => s.(orphaned := s.orphaned + 1)
    case Move(to) =>
      if k.(coll := to) in rows then s.(deleted := s.deleted + 1) else s.(migrated := s.migrated + 1)
  }

  function Committed(v: Judge, rows: Rows, order: seq<Key>): Rows {
    if order == [] then rows
    else CommitRow(v, Committed(v, rows, order[..|order| - 1]), order[|order| - 1])
  }

  /** Commit mode looks collisions up in the table as changed so far ... */
  function CommitStats(v: Judge, rows: Rows, order: seq<Key>): Stats {
    if order == [] then Stats(0, 0, 0, 0, 0)
    else
      var before := order[..|order| - 1];
      var s := CommitStats(v, rows, before);
      Counted(v, Committed(v, rows, before), order[|order| - 1], s.(total := s.total + 1))
  }

  /** ... dry-run looks them up in the table as it was. */
  function DryStats(v: Judge, rows: Rows, order: seq<Key>): Stats {
    if order == [] then Stats(0, 0, 0, 0, 0)
    else
      var s := DryStats(v, rows, order[..|order| - 1]);
      Counted(v, rows, order[|order| - 1], s.(total := s.total + 1))
  }

  /** The four outcomes account for every row, in both modes, whatever the verdicts. */
  lemma {:induction false} OutcomesSumToTotal(v: Judge, rows: Rows, order: seq<Key>)
    ensures var s := CommitStats(v, rows, order);
            s.total == |order| == s.migrated + s.alreadyInternal + s.orphaned + s.deleted
    ensures var s := DryStats(v, rows, order);
            s.total == |order| == s.migrated + s.alreadyInternal + s.orphaned + s.deleted
  {
    if order != [] {
      OutcomesSumToTotal(v, rows, order[..|order| - 1]);
    }
  }

  /** How many of the keys are judged in a certain way. */
  function CountJudged(v: Judge, order: seq<Key>, kind: Verdict -> bool): nat {
    if order == [] then 0
    else CountJudged(v, order[..|order| - 1], kind) + if kind(v(order[|order| - 1].coll)) then 1 else 0
  }

  function IsInternal(): Verdict -> bool { x => x == AlreadyInternal }
  function IsOrphan(): Verdict -> bool { x => x == Orphan }
  function IsMove(): Verdict -> bool { (x: Verdict) => x.Move? }

  /** Each counter counts what it says, in both modes: rows already internal, orphans, and the rest moved or deleted. */
  lemma {:induction false} CountersCount(v: Judge, rows: Rows, order: seq<Key>)
    ensures CommitStats(v, rows, order).alreadyInternal == CountJudged(v, order, IsInternal())
    ensures DryStats(v, rows, order).alreadyInternal == CountJudged(v, order, IsInternal())
    ensures CommitStats(v, rows, order).orphaned == CountJudged(v, order, IsOrphan())
    ensures DryStats(v, rows, order).orphaned == CountJudged(v, order, IsOrphan())
    ensures CommitStats(v, rows, order).migrated + CommitStats(v, rows, order).deleted == CountJudged(v, order, IsMove())
    ensures DryStats(v, rows, order).migrated + DryStats(v, rows, order).deleted == CountJudged(v, order, IsMove())
  {
    if order != [] {
      CountersCount(v, rows, order[..|order| - 1]);
    }
  }

  // ---------------------------------------------------------------- the shape of good verdicts

  /** No internal id is the target of two external ids. */
  ghost predicate Injective(v: Judge) {
    forall a, b :: v(a).Move? && v(a) == v(b) ==> a == b
  }

  /** A target is never moved on to a different place. */
  ghost predicate NoChain(v: Judge) {
    forall a :: v(a).Move? && v(a).to != a ==> !v(v(a).to).Move?
  }

  /** A target is never itself judged movable, not even onto itself. */
  ghost predicate TargetsStay(v: Judge) {
    forall a :: v(a).Move? ==> !v(v(a).to).Move?
  }

  // ---------------------------------------------------------------- the table after a prefix of the snapshot

  ghost predicate MovedInto(v: Judge, done: seq<Key>, k: Key) {
    exists d :: d in done && Target(v, d) == Some(k)
  }

  /** Processing keys of one catalog leaves every other catalog alone. */
  lemma {:induction false} OtherCatalogsUntouched(v: Judge, rows: Rows, c: Id, order: seq<Key>, k: Key)
    requires forall o :: o in order ==> o.catalog == c
    requires k.catalog != c
    ensures k in Committed(v, rows, order) <==> k in rows
    ensures k in rows ==> Committed(v, rows, order)[k] == rows[k]
  {
    if order != [] {
      OtherCatalogsUntouched(v, rows, c, order[..|order| - 1], k);
      assert order[|order| - 1] in order;
    }
  }

  /** A snapshot row nobody has processed yet is still where the snapshot saw it, with its columns. */
  lemma {:induction false} UnprocessedStays(v: Judge, rows: Rows, order: seq<Key>, k: Key)
    requires k in rows && k !in order
    ensures k in Committed(v, rows, order) && Committed(v, rows, order)[k] == rows[k]
  {
    if order != [] {
      UnprocessedStays(v, rows, order[..|order| - 1], k);
    }
  }

  /** Rows only disappear by being counted as deleted. */
  lemma {:induction false} RowsConserved(v: Judge, rows: Rows, order: seq<Key>)
    requires Distinct(order) && forall k :: k in order ==> k in rows
    ensures |Committed(v, rows, order)| + CommitStats(v, rows, order).deleted == |rows|
  {
    if order != [] {
      var before, k := order[..|order| - 1], order[|order| - 1];
      RowsConserved(v, rows, before);
      assert k in order;
      UnprocessedStays(v, rows, before, k);
      var now := Committed(v, rows, before);
      if Target(v, k).Some? {
        var t := Target(v, k).value;
        RemoveOne(now, k);
        if t !in now {
          AddOne(now - {k}, t, now[k]);
        }
      }
    }
  }

  lemma RemoveOne(m: Rows, k: Key)
    requires k in m
    ensures |m - {k}| == |m| - 1
  {
    assert (m - {k}).Keys == m.Keys - {k};
  }

  lemma AddOne(m: Rows, k: Key, r: Row)
    requires k !in m
    ensures |m[k := r]| == |m| + 1
  {
    assert m[k := r].Keys == m.Keys + {k};
  }

  /** With targets that stay put: a movable key is gone once processed, a staying key is never lost, and gains only its movers. */
  ghost predicate Halfway(v: Judge, rows: Rows, done: seq<Key>, now: Rows) {
    forall k :: (k in now <==> if v(k.coll).Move? then k in rows && k !in done
                               else k in rows || MovedInto(v, done, k))
  }

  /** Columns are carried: a row keeps its own, a row that moved in brings its own. */
  ghost predicate Carried(v: Judge, rows: Rows, done: seq<Key>, now: Rows) {
    && (forall k :: k in now && k in rows ==> now[k] == rows[k])
    && (forall d :: d in done && d in rows && Target(v, d).Some? ==>
          var t := Target(v, d).value;
          t in now && t !in rows ==> now[t] == rows[d])
  }

  lemma SameTargetSameKey(v: Judge, a: Key, b: Key)
    requires Injective(v) && Target(v, a).Some? && Target(v, a) == Target(v, b)
    ensures a == b
  {
    assert v(a.coll) == v(b.coll);
  }

  lemma NotMovedIntoYet(v: Judge, done: seq<Key>, k: Key)
    requires Injective(v) && Target(v, k).Some? && k !in done
    ensures !MovedInto(v, done, Target(v, k).value)
  {
    forall d | d in done && Target(v, d).Some?
      ensures Target(v, d) != Target(v, k)
    {
      if Target(v, d) == Target(v, k) {
        SameTargetSameKey(v, d, k);
      }
    }
  }

  lemma HalfwayStep(v: Judge, rows: Rows, done: seq<Key>, now: Rows, k: Key)
    requires Injective(v) && TargetsStay(v)
    requires Halfway(v, rows, done, now) && k in rows && k !in done
    ensures Halfway(v, rows, done + [k], CommitRow(v, now, k))
  {
    var next := CommitRow(v, now, k);
    forall x
      ensures x in next <==> if v(x.coll).Move? then x in rows && x !in done + [k]
                             else x in rows || MovedInto(v, done + [k], x)
    {
      assert MovedInto(v, done + [k], x) <==> MovedInto(v, done, x) || Target(v, k) == Some(x) by {
        if MovedInto(v, done, x) {
          var d :| d in done && Target(v, d) == Some(x);
          assert d in done + [k];
        }
        if Target(v, k) == Some(x) {
          assert k in done + [k];
        }
      }
    }
  }

  lemma CarriedStep(v: Judge, rows: Rows, done: seq<Key>, now: Rows, k: Key)
    requires Injective(v) && TargetsStay(v)
    requires Halfway(v, rows, done, now) && Carried(v, rows, done, now) && k in rows && k !in done
    ensures Carried(v, rows, done + [k], CommitRow(v, now, k))
  {
    var next := CommitRow(v, now, k);
    forall d | d in done + [k] && d in rows && Target(v, d).Some? && Target(v, d).value in next &&
               Target(v, d).value !in rows
      ensures next[Target(v, d).value] == rows[d]
    {
      var t := Target(v, d).value;
      if d == k {
        NotMovedIntoYet(v, done, k);
      } else if Target(v, k).Some? && Target(v, k).value == t {
        SameTargetSameKey(v, d, k);
      }
    }
  }

  lemma {:induction false} HalfwayHolds(v: Judge, rows: Rows, order: seq<Key>)
    requires Injective(v) && TargetsStay(v)
    requires Distinct(order) && forall k :: k in order ==> k in rows
    ensures Halfway(v, rows, order, Committed(v, rows, order))
    ensures Carried(v, rows, order, Committed(v, rows, order))
  {
    if order != [] {
      var before, k := order[..|order| - 1], order[|order| - 1];
      HalfwayHolds(v, rows, before);
      assert k in order;
      HalfwayStep(v, rows, before, Committed(v, rows, before), k);
      CarriedStep(v, rows, before, Committed(v, rows, before), k);
      assert before + [k] == order;
    }
  }

  // ---------------------------------------------------------------- the promises, for good verdicts

  /**
   The table a committed migration must leave: movable keys are gone; any other key holds
   what it held before, else what stood under the one key that moves to it, else nothing.
   This mentions neither the snapshot's order nor the loop.
   */
  ghost predicate IsMigrated(v: Judge, rows: Rows, c: Id, after: Rows) {
    && (forall k :: k in after ==>
          if k in rows then after[k] == rows[k] && (k.catalog == c ==> !v(k.coll).Move?)
          else exists d :: d in rows && d.catalog == c && Target(v, d) == Some(k) && after[k] == rows[d])
    && (forall k :: k in rows && (k.catalog != c || !v(k.coll).Move?) ==> k in after)
    && (forall k :: k in rows && k.catalog == c && Target(v, k).Some? ==> Target(v, k).value in after)
  }

  /** A committed migration leaves exactly that table, for every order of the snapshot. */
  lemma CommitMigrates(v: Judge, rows: Rows, c: Id, order: seq<Key>)
    requires Injective(v) && TargetsStay(v) && IsSnapshot(rows, c, order)
    ensures IsMigrated(v, rows, c, Committed(v, rows, order))
  {
    HalfwayHolds(v, rows, order);
    var after := Committed(v, rows, order);
    forall k | k in after
      ensures if k in rows then after[k] == rows[k] && (k.catalog == c ==> !v(k.coll).Move?)
              else exists d :: d in rows && d.catalog == c && Target(v, d) == Some(k) && after[k] == rows[d]
    {
      if k !in rows {
        var d :| d in order && Target(v, d) == Some(k);
        assert d in rows && d.catalog == c && after[k] == rows[d];
      }
    }
    forall k | k in rows && (k.catalog != c || !v(k.coll).Move?)
      ensures k in after
    {
      if k.catalog != c {
        OtherCatalogsUntouched(v, rows, c, order, k);
      }
    }
    forall k | k in rows && k.catalog == c && Target(v, k).Some?
      ensures Target(v, k).value in after
    {
      assert k in order;
      assert MovedInto(v, order, Target(v, k).value);
    }
  }

  /** The promised table is unique, so the order in which the database returns the snapshot does not matter. */
  lemma MigratedIsUnique(v: Judge, rows: Rows, c: Id, one: Rows, two: Rows)
    requires Injective(v) && IsMigrated(v, rows, c, one) && IsMigrated(v, rows, c, two)
    ensures one == two
  {
    forall k
      ensures k in one <==> k in two
      ensures k in one && k in two ==> one[k] == two[k]
    {
      if k in one && k !in rows {
        var d :| d in rows && d.catalog == c && Target(v, d) == Some(k) && one[k] == rows[d];
        assert k in two;
        var e :| e in rows && e.catalog == c && Target(v, e) == Some(k) && two[k] == rows[e];
        SameTargetSameKey(v, d, e);
      }
      if k in two && k !in rows {
        var e :| e in rows && e.catalog == c && Target(v, e) == Some(k) && two[k] == rows[e];
        assert k in one;
      }
    }
  }

  // ---------------------------------------------------------------- exactly which verdicts are good

  ghost predicate DryRunPredicts(v: Judge) {
    forall rows: Rows, c: Id, order: seq<Key> ::
      IsSnapshot(rows, c, order) ==> DryStats(v, rows, order) == CommitStats(v, rows, order)
  }

  /** No commit can change whether a later row of the snapshot collides. */
  lemma {:induction false} CollisionsFixed(v: Judge, rows: Rows, order: seq<Key>, k: Key)
    requires Injective(v) && NoChain(v)
    requires Distinct(order) && k !in order && k in rows && Target(v, k).Some?
    ensures Target(v, k).value in Committed(v, rows, order) <==> Target(v, k).value in rows
  {
    if order != [] {
      var before, o := order[..|order| - 1], order[|order| - 1];
      CollisionsFixed(v, rows, before, k);
      assert o in order;
      var t := Target(v, k).value;
      if t == k {
        UnprocessedStays(v, rows, order, k);
      } else if Target(v, o).Some? && Target(v, o).value == t {
        SameTargetSameKey(v, k, o);
      } else if Target(v, o).Some? {
        assert o != t;
      }
    }
  }

  lemma {:induction false} NoChainPredicts(v: Judge, rows: Rows, order: seq<Key>)
    requires Injective(v) && NoChain(v)
    requires Distinct(order) && forall k :: k in order ==> k in rows
    ensures DryStats(v, rows, order) == CommitStats(v, rows, order)
  {
    if order != [] {
      var before, k := order[..|order| - 1], order[|order| - 1];
      NoChainPredicts(v, rows, before);
      assert k in order;
      if Target(v, k).Some? {
        CollisionsFixed(v, rows, before, k);
      }
    }
  }

  /** Two rows, one of them sitting where the other wants to go while itself wanting to go elsewhere. */
  ghost function ChainRows(a: Id, i: Id): Rows {
    map[Key("c", a, "s") := "from a", Key("c", i, "s") := "from i"]
  }

  lemma ChainBreaksPrediction(v: Judge, a: Id)
    requires Injective(v) && v(a).Move? && v(a).to != a && v(v(a).to).Move?
    ensures var i := v(a).to;
            var order := [Key("c", i, "s"), Key("c", a, "s")];
            && IsSnapshot(ChainRows(a, i), "c", order)
            && DryStats(v, ChainRows(a, i), order) != CommitStats(v, ChainRows(a, i), order)
  {
    var i := v(a).to;
    var ka, ki := Key("c", a, "s"), Key("c", i, "s");
    var rows := ChainRows(a, i);
    var order := [ki, ka];
    assert order[..1] == [ki] && order[..1][..0] == [];
    assert v(i).to != i;
    assert Committed(v, rows, [ki]) == CommitRow(v, rows, ki);
    assert ki !in Committed(v, rows, [ki]);
    assert CommitStats(v, rows, order).deleted == CommitStats(v, rows, [ki]).deleted;
    assert DryStats(v, rows, order).deleted == DryStats(v, rows, [ki]).deleted + 1;
    assert DryStats(v, rows, [ki]) == CommitStats(v, rows, [ki]);
  }

  /** Dry-run reports what a commit would do, on every table and every order, if and only if no target moves on. */
  lemma DryRunPredictsIff(v: Judge)
    requires Injective(v)
    ensures DryRunPredicts(v) <==> NoChain(v)
  {
    if NoChain(v) {
      forall rows: Rows, c: Id, order: seq<Key> | IsSnapshot(rows, c, order)
        ensures DryStats(v, rows, order) == CommitStats(v, rows, order)
      {
        NoChainPredicts(v, rows, order);
      }
    } else {
      var a :| v(a).Move? && v(a).to != a && v(v(a).to).Move?;
      ChainBreaksPrediction(v, a);
    }
  }

  /** After a commit, the key every movable row was bound for is occupied. */
  ghost predicate ReachesTargets(v: Judge) {
    forall rows: Rows, c: Id, order: seq<Key>, k: Key ::
      IsSnapshot(rows, c, order) && k in order && Target(v, k).Some? ==>
        Target(v, k).value in Committed(v, rows, order)
  }

  lemma MovableTargetIsLost(v: Judge, a: Id)
    requires Injective(v) && v(a).Move? && v(v(a).to).Move?
    ensures var i := v(a).to;
            var ka, ki := Key("c", a, "s"), Key("c", i, "s");
            var order := if i == a then [ka] else [ka, ki];
            && IsSnapshot(ChainRows(a, i), "c", order)
            && ki !in Committed(v, ChainRows(a, i), order)
  {
    var i := v(a).to;
    var ka, ki := Key("c", a, "s"), Key("c", i, "s");
    var rows := ChainRows(a, i);
    if i == a {
      assert [ka][..0] == [];
      assert Committed(v, rows, [ka]) == CommitRow(v, rows, ka);
    } else {
      assert v(i).to != i;
      assert [ka, ki][..1] == [ka] && [ka][..0] == [];
      assert Committed(v, rows, [ka]) == CommitRow(v, rows, ka);
      assert Committed(v, rows, [ka, ki]) == CommitRow(v, Committed(v, rows, [ka]), ki);
    }
  }

  /**
   Every movable row ends up under its target key, or yields to the row already there, on
   every table and order, if and only if no target is itself movable.  A target movable
   onto itself is enough to break it: the row collides with itself and is deleted.
   */
  lemma ReachesTargetsIff(v: Judge)
    requires Injective(v)
    ensures ReachesTargets(v) <==> TargetsStay(v)
  {
    if TargetsStay(v) {
      forall rows: Rows, c: Id, order: seq<Key>, k: Key |
        IsSnapshot(rows, c, order) && k in order && Target(v, k).Some?
        ensures Target(v, k).value in Committed(v, rows, order)
      {
        CommitMigrates(v, rows, c, order);
      }
    } else {
      var a :| v(a).Move? && v(v(a).to).Move?;
      MovableTargetIsLost(v, a);
      var ka := Key("c", a, "s");
      assert Target(v, ka) == Some(Key("c", v(a).to, "s"));
    }
  }

  /** Every commit, on every table and order, leaves exactly the promised table. */
  ghost predicate Migrates(v: Judge) {
    forall rows: Rows, c: Id, order: seq<Key> ::
      IsSnapshot(rows, c, order) ==> IsMigrated(v, rows, c, Committed(v, rows, order))
  }

  /** It does, if and only if no target is itself movable. */
  lemma MigratesIff(v: Judge)
    requires Injective(v)
    ensures Migrates(v) <==> TargetsStay(v)
  {
    if TargetsStay(v) {
      forall rows: Rows, c: Id, order: seq<Key> | IsSnapshot(rows, c, order)
        ensures IsMigrated(v, rows, c, Committed(v, rows, order))
      {
        CommitMigrates(v, rows, c, order);
      }
    } else {
      var a :| v(a).Move? && v(v(a).to).Move?;
      MovableTargetIsLost(v, a);
      var i := v(a).to;
      var ka, ki := Key("c", a, "s"), Key("c", i, "s");
      var order := if i == a then [ka] else [ka, ki];
      assert ka in ChainRows(a, i) && Target(v, ka) == Some(ki);
      assert !IsMigrated(v, ChainRows(a, i), "c", Committed(v, ChainRows(a, i), order));
    }
  }

  // ---------------------------------------------------------------- running it twice

  /** A second commit, on whatever snapshot it sees, changes no row and reports no work. */
  ghost predicate Settles(v: Judge) {
    forall rows: Rows, c: Id, order: seq<Key>, again: seq<Key> ::
      IsSnapshot(rows, c, order) && IsSnapshot(Committed(v, rows, order), c, again) ==>
        && Committed(v, Committed(v, rows, order), again) == Committed(v, rows, order)
        && CommitStats(v, Committed(v, rows, order), again).migrated == 0
        && CommitStats(v, Committed(v, rows, order), again).deleted == 0
  }

  lemma {:induction false} NothingMovable(v: Judge, rows: Rows, order: seq<Key>)
    requires forall k :: k in order ==> !v(k.coll).Move?
    ensures Committed(v, rows, order) == rows
    ensures CommitStats(v, rows, order).migrated == 0 && CommitStats(v, rows, order).deleted == 0
  {
    if order != [] {
      assert order[|order| - 1] in order;
      NothingMovable(v, rows, order[..|order| - 1]);
    }
  }

  /** Without chains a processed movable key stays empty: nothing moves into a movable key other than itself. */
  lemma {:induction false} ProcessedMovableGone(v: Judge, rows: Rows, order: seq<Key>, k: Key)
    requires NoChain(v) && Distinct(order) && v(k.coll).Move?
    requires k in order || k !in rows
    ensures k !in Committed(v, rows, order)
  {
    if order != [] {
      var before, o := order[..|order| - 1], order[|order| - 1];
      if o != k {
        assert k in before || k !in rows by {
          if k in order {
            var n :| 0 <= n < |order| && order[n] == k;
            assert before[n] == k;
          }
        }
        ProcessedMovableGone(v, rows, before, k);
      } else {
        assert k in Committed(v, rows, before) || k !in Committed(v, rows, before);
      }
    }
  }

  lemma ChainNeverSettles(v: Judge, a: Id)
    requires Injective(v) && v(a).Move? && v(a).to != a && v(v(a).to).Move?
    ensures var i := v(a).to;
            var ka, ki := Key("c", a, "s"), Key("c", i, "s");
            var rows := map[ka := "from a"];
            && IsSnapshot(rows, "c", [ka])
            && IsSnapshot(Committed(v, rows, [ka]), "c", [ki])
            && CommitStats(v, Committed(v, rows, [ka]), [ki]).migrated == 1
  {
    var i := v(a).to;
    var ka, ki := Key("c", a, "s"), Key("c", i, "s");
    var rows := map[ka := "from a"];
    assert [ka][..0] == [] && [ki][..0] == [];
    assert Committed(v, rows, [ka]) == CommitRow(v, rows, ka) == map[ki := "from a"];
    assert v(i).to != i;
    assert CommitStats(v, map[ki := "from a"], []) == Stats(0, 0, 0, 0, 0);
  }

  /** A second commit finds nothing to do, on every table, if and only if no target moves on. */
  lemma SettlesIff(v: Judge)
    requires Injective(v)
    ensures Settles(v) <==> NoChain(v)
  {
    if NoChain(v) {
      forall rows: Rows, c: Id, order: seq<Key>, again: seq<Key> |
        IsSnapshot(rows, c, order) && IsSnapshot(Committed(v, rows, order), c, again)
        ensures Committed(v, Committed(v, rows, order), again) == Committed(v, rows, order)
        ensures CommitStats(v, Committed(v, rows, order), again).migrated == 0
        ensures CommitStats(v, Committed(v, rows, order), again).deleted == 0
      {
        forall k | k in again
          ensures !v(k.coll).Move?
        {
          if v(k.coll).Move? {
            ProcessedMovableGone(v, rows, order, k);
          }
        }
        NothingMovable(v, Committed(v, rows, order), again);
      }
    } else {
      var a :| v(a).Move? && v(a).to != a && v(v(a).to).Move?;
      ChainNeverSettles(v, a);
    }
  }
}
