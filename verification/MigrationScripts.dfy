/**
 The migration scripts as they run: `migrate_catalog` / `migrate_catalog_schema` over a
 mutable table inside one transaction, and `migrate_all` over the catalogs, where a failing
 catalog is rolled back and skipped.
 */
module MigrationScripts {
  import opened Options
  import opened IdMigration

  /** `styles.styles`, or one schema's `collection_configs`. */
  class Table {
    var rows: Rows
    constructor (rows: Rows)
      ensures this.rows == rows
    { this.rows := rows; }
  }

  /** The counters a catalog reports: of the whole snapshot, or of the rows before the one that raised. */
  function Reported(v: Judge, rows: Rows, order: seq<Key>, dryRun: bool, failsAt: Option<nat>): Stats {
    CountersUpTo(v, rows, order, dryRun, if Fails(order, failsAt) then failsAt.value else |order|)
  }

  predicate Fails(order: seq<Key>, failsAt: Option<nat>) {
    failsAt.Some? && failsAt.value < |order|
  }

  /** The table after one catalog: changed only by a commit that went through. */
  function RowsAfter(v: Judge, rows: Rows, order: seq<Key>, dryRun: bool, failsAt: Option<nat>): Rows {
    if dryRun || Fails(order, failsAt) then rows else Committed(v, rows, order)
  }

  /** The body of the loop for one snapshot row that is still in the table. */
  method MigrateRow(table: Table, v: Judge, k: Key, dryRun: bool, before: Stats) returns (stats: Stats)
    requires k in table.rows
    modifies table
    ensures table.rows == if dryRun then old(table.rows) else CommitRow(v, old(table.rows), k)
    ensures stats == Counted(v, old(table.rows), k, before)
  {
    stats := before;
    match v(k.coll)
    case AlreadyInternal =>
      stats := stats.(alreadyInternal := stats.alreadyInternal + 1);
    case Orphan =>
      stats := stats.(orphaned := stats.orphaned + 1);
    case Move(to) =>
      var target := k.(coll := to);
      var collides := target in table.rows;
      if !dryRun {
        if collides {
          table.rows := table.rows - {k};
          stats := stats.(deleted := stats.deleted + 1);
        } else {
          table.rows := (table.rows - {k})[target := table.rows[k]];
          stats := stats.(migrated := stats.migrated + 1);
        }
      } else if collides {
        stats := stats.(deleted := stats.deleted + 1);
      } else {
        stats := stats.(migrated := stats.migrated + 1);
      }
  }

  /**
   One catalog in one transaction.  `failsAt` is the row at which a statement raises, if
   any; the transaction then rolls back, but the counters gathered so far are returned.
   */
  method MigrateCatalog(table: Table, v: Judge, c: Id, order: seq<Key>, dryRun: bool, failsAt: Option<nat>)
      returns (stats: Stats)
    requires IsSnapshot(table.rows, c, order)
    modifies table
    ensures table.rows == RowsAfter(v, old(table.rows), order, dryRun, failsAt)
    ensures stats == Reported(v, old(table.rows), order, dryRun, failsAt)
    // a dry run or a failure leaves the table as it was, and only those
    ensures dryRun || (failsAt.Some? && failsAt.value < |order|) ==> table.rows == old(table.rows)
    ensures !dryRun && (failsAt.None? || failsAt.value >= |order|) ==> table.rows == Committed(v, old(table.rows), order)
    // a failed catalog's counters are those of the rows before the failure, under the full total
    ensures failsAt.Some? && failsAt.value < |order| ==>
              stats == (if dryRun then DryStats(v, old(table.rows), order[..failsAt.value])
                        else CommitStats(v, old(table.rows), order[..failsAt.value])).(total := |order|)
    ensures !dryRun && !Fails(order, failsAt) ==> |table.rows| + stats.deleted == |old(table.rows)|
    ensures !Fails(order, failsAt) ==>
              stats.total == stats.migrated + stats.alreadyInternal + stats.orphaned + stats.deleted == |order|
  {
    var begin := table.rows;
    CatalogAddsUp(v, begin, c, order, dryRun);
    if Fails(order, failsAt) {
      stats := MigrateRows(table, v, c, order, dryRun, failsAt.value);
      table.rows := begin;
    } else {
      stats := MigrateRows(table, v, c, order, dryRun, |order|);
    }
  }

  /** The loop over the snapshot, as far as the row before the one that raises. */
  method MigrateRows(table: Table, v: Judge, c: Id, order: seq<Key>, dryRun: bool, upto: nat) returns (stats: Stats)
    requires IsSnapshot(table.rows, c, order) && upto <= |order|
    modifies table
    ensures Sofar(v, old(table.rows), order, dryRun, upto, table.rows, stats)
  {
    ghost var begin := table.rows;
    stats := Stats(|order|, 0, 0, 0, 0);
    var n := 0;
    while n < upto
      invariant 0 <= n <= upto
      invariant Sofar(v, begin, order, dryRun, n, table.rows, stats)
    {
      RowAdvances(v, begin, c, order, dryRun, n, table.rows, stats);
      stats := MigrateRow(table, v, order[n], dryRun, stats);
      n := n + 1;
    }
  }

  /** The table and the counters after n rows of the snapshot. */
  ghost predicate Sofar(v: Judge, begin: Rows, order: seq<Key>, dryRun: bool, n: nat, rows: Rows, stats: Stats)
    requires n <= |order|
  {
    && rows == (if dryRun then begin else Committed(v, begin, order[..n]))
    && stats == CountersUpTo(v, begin, order, dryRun, n)
  }

  lemma RowAdvances(v: Judge, begin: Rows, c: Id, order: seq<Key>, dryRun: bool, n: nat, rows: Rows, stats: Stats)
    requires n < |order| && IsSnapshot(begin, c, order) && Sofar(v, begin, order, dryRun, n, rows, stats)
    ensures order[n] in rows
    ensures Sofar(v, begin, order, dryRun, n + 1, if dryRun then rows else CommitRow(v, rows, order[n]),
                  Counted(v, rows, order[n], stats))
  {
    UnprocessedInPrefix(v, begin, c, order, n);
    CountersStep(v, begin, order, dryRun, n);
  }

  lemma CatalogAddsUp(v: Judge, rows: Rows, c: Id, order: seq<Key>, dryRun: bool)
    requires IsSnapshot(rows, c, order)
    ensures var stats := CountersUpTo(v, rows, order, dryRun, |order|);
            && stats.total == stats.migrated + stats.alreadyInternal + stats.orphaned + stats.deleted == |order|
            && (!dryRun ==> |Committed(v, rows, order)| + stats.deleted == |rows|)
    ensures order[..|order|] == order
  {
    assert order[..|order|] == order;
    OutcomesSumToTotal(v, rows, order);
    RowsConserved(v, rows, order);
  }

  function CountersUpTo(v: Judge, rows: Rows, order: seq<Key>, dryRun: bool, n: nat): Stats
    requires n <= |order|
  {
    (if dryRun then DryStats(v, rows, order[..n]) else CommitStats(v, rows, order[..n])).(total := |order|)
  }

  lemma CountersStep(v: Judge, rows: Rows, order: seq<Key>, dryRun: bool, n: nat)
    requires n < |order|
    ensures Committed(v, rows, order[..n + 1]) == CommitRow(v, Committed(v, rows, order[..n]), order[n])
    ensures CountersUpTo(v, rows, order, dryRun, n + 1) ==
            Counted(v, if dryRun then rows else Committed(v, rows, order[..n]), order[n],
                    CountersUpTo(v, rows, order, dryRun, n))
  {
    assert order[..n + 1][..n] == order[..n];
  }

  lemma UnprocessedInPrefix(v: Judge, rows: Rows, c: Id, order: seq<Key>, n: nat)
    requires IsSnapshot(rows, c, order) && n < |order|
    ensures order[n] in rows
    ensures order[n] in Committed(v, rows, order[..n])
  {
    assert order[n] in order;
    UnprocessedStays(v, rows, order[..n], order[n]);
  }

  // ---------------------------------------------------------------- all catalogs

  /** What a run over several catalogs is given: their verdicts, snapshot orders and failures. */
  datatype Plan = Plan(judge: Id -> Judge, order: Id -> seq<Key>, failsAt: Id -> Option<nat>)

  function AllRows(p: Plan, rows: Rows, cats: seq<Id>, dryRun: bool): Rows {
    if cats == [] then rows
    else
      var c := cats[|cats| - 1];
      RowsAfter(p.judge(c), AllRows(p, rows, cats[..|cats| - 1], dryRun), p.order(c), dryRun, p.failsAt(c))
  }

  ghost predicate AgreeOn(one: Rows, two: Rows, c: Id) {
    forall k: Key :: k.catalog == c ==> (k in one <==> k in two) && (k in one && k in two ==> one[k] == two[k])
  }

  ghost predicate IsPlanFor(p: Plan, rows: Rows, cats: seq<Id>) {
    && (forall c :: c in cats ==> IsSnapshot(rows, c, p.order(c)))
    && (forall i, j :: 0 <= i < j < |cats| ==> cats[i] != cats[j])
  }

  /** A catalog's migration depends on, and changes, nothing outside the catalog. */
  lemma {:induction false} CommitIsLocal(v: Judge, one: Rows, two: Rows, c: Id, order: seq<Key>)
    requires AgreeOn(one, two, c) && forall k :: k in order ==> k.catalog == c
    ensures AgreeOn(Committed(v, one, order), Committed(v, two, order), c)
  {
    if order != [] {
      CommitIsLocal(v, one, two, c, order[..|order| - 1]);
      assert order[|order| - 1] in order;
    }
  }

  lemma CountedIsLocal(v: Judge, one: Rows, two: Rows, c: Id, k: Key, s: Stats)
    requires AgreeOn(one, two, c) && k.catalog == c
    ensures Counted(v, one, k, s) == Counted(v, two, k, s)
  {
    if v(k.coll).Move? {
      assert k.(coll := v(k.coll).to).catalog == c;
    }
  }

  /** ... and so do its counters. */
  lemma {:induction false} StatsAreLocal(v: Judge, one: Rows, two: Rows, c: Id, order: seq<Key>)
    requires AgreeOn(one, two, c) && forall k :: k in order ==> k.catalog == c
    ensures CommitStats(v, one, order) == CommitStats(v, two, order)
  {
    if order != [] {
      var before, k := order[..|order| - 1], order[|order| - 1];
      StatsAreLocal(v, one, two, c, before);
      CommitIsLocal(v, one, two, c, before);
      assert k in order;
      var s := CommitStats(v, one, before);
      CountedIsLocal(v, Committed(v, one, before), Committed(v, two, before), c, k, s.(total := s.total + 1));
    }
  }

  lemma {:induction false} DryStatsAreLocal(v: Judge, one: Rows, two: Rows, c: Id, order: seq<Key>)
    requires AgreeOn(one, two, c) && forall k :: k in order ==> k.catalog == c
    ensures DryStats(v, one, order) == DryStats(v, two, order)
  {
    if order != [] {
      var before, k := order[..|order| - 1], order[|order| - 1];
      DryStatsAreLocal(v, one, two, c, before);
      assert k in order;
      var s := DryStats(v, one, before);
      CountedIsLocal(v, one, two, c, k, s.(total := s.total + 1));
    }
  }

  lemma ReportIsLocal(v: Judge, one: Rows, two: Rows, c: Id, order: seq<Key>, dryRun: bool, failsAt: Option<nat>)
    requires AgreeOn(one, two, c) && forall k :: k in order ==> k.catalog == c
    ensures Reported(v, one, order, dryRun, failsAt) == Reported(v, two, order, dryRun, failsAt)
  {
    var n := if Fails(order, failsAt) then failsAt.value else |order|;
    StatsAreLocal(v, one, two, c, order[..n]);
    DryStatsAreLocal(v, one, two, c, order[..n]);
  }

  /**
   Catalogs are independent: after the whole run each listed catalog holds what its own
   migration alone would have left there, a failed one holds what it held before, and so
   does a catalog that was not listed.
   */
  lemma {:induction false} CatalogsAreIndependent(p: Plan, rows: Rows, cats: seq<Id>, dryRun: bool, c: Id)
    requires IsPlanFor(p, rows, cats)
    ensures c in cats ==> AgreeOn(AllRows(p, rows, cats, dryRun),
                                  RowsAfter(p.judge(c), rows, p.order(c), dryRun, p.failsAt(c)), c)
    ensures c !in cats || dryRun || (p.failsAt(c).Some? && p.failsAt(c).value < |p.order(c)|) ==>
              AgreeOn(AllRows(p, rows, cats, dryRun), rows, c)
    ensures c in cats && !dryRun && (p.failsAt(c).None? || p.failsAt(c).value >= |p.order(c)|) ==>
              AgreeOn(AllRows(p, rows, cats, dryRun), Committed(p.judge(c), rows, p.order(c)), c)
  {
    if cats != [] {
      var before, last := cats[..|cats| - 1], cats[|cats| - 1];
      assert last in cats && last !in before;
      CatalogsAreIndependent(p, rows, before, dryRun, c);
      CatalogsAreIndependent(p, rows, before, dryRun, last);
      var sofar := AllRows(p, rows, before, dryRun);
      if !dryRun && !Fails(p.order(last), p.failsAt(last)) {
        CommitIsLocal(p.judge(last), sofar, rows, last, p.order(last));
        if c != last {
          forall k: Key | k.catalog == c
            ensures k in Committed(p.judge(last), sofar, p.order(last)) <==> k in sofar
            ensures k in sofar ==> Committed(p.judge(last), sofar, p.order(last))[k] == sofar[k]
          {
            OtherCatalogsUntouched(p.judge(last), sofar, last, p.order(last), k);
          }
        }
      }
    }
  }

  function Plus(a: Stats, b: Stats): Stats {
    Stats(a.total + b.total, a.migrated + b.migrated, a.alreadyInternal + b.alreadyInternal,
          a.orphaned + b.orphaned, a.deleted + b.deleted)
  }

  /** The sum of what each catalog would report if it were migrated alone, on the table as it was. */
  function SumAlone(p: Plan, rows: Rows, cats: seq<Id>, dryRun: bool): Stats {
    if cats == [] then Stats(0, 0, 0, 0, 0)
    else
      var c := cats[|cats| - 1];
      Plus(SumAlone(p, rows, cats[..|cats| - 1], dryRun),
           Reported(p.judge(c), rows, p.order(c), dryRun, p.failsAt(c)))
  }

  /** `migrate_all`: one transaction per catalog, totals over all of them. */
  method MigrateAll(table: Table, p: Plan, cats: seq<Id>, dryRun: bool) returns (processed: nat, total: Stats)
    requires IsPlanFor(p, table.rows, cats)
    modifies table
    ensures table.rows == AllRows(p, old(table.rows), cats, dryRun)
    ensures dryRun ==> table.rows == old(table.rows)
    ensures processed == |cats|
    ensures total == SumAlone(p, old(table.rows), cats, dryRun)
    ensures !dryRun && (forall c :: c in cats ==> !Fails(p.order(c), p.failsAt(c))) ==>
              |table.rows| + total.deleted == |old(table.rows)|
  {
    ghost var begin := table.rows;
    processed, total := 0, Stats(0, 0, 0, 0, 0);
    var n := 0;
    while n < |cats|
      invariant 0 <= n <= |cats| && processed == n
      invariant table.rows == AllRows(p, begin, cats[..n], dryRun)
      invariant total == SumAlone(p, begin, cats[..n], dryRun)
    {
      var c := cats[n];
      NextCatalog(p, begin, cats, dryRun, n);
      var s := MigrateCatalog(table, p.judge(c), c, p.order(c), dryRun, p.failsAt(c));
      processed := processed + 1;
      total := Plus(total, s);
      n := n + 1;
    }
    AllOf(cats);
    RunAddsUp(p, begin, cats, dryRun);
  }

  lemma AllOf(cats: seq<Id>)
    ensures cats[..|cats|] == cats
  {
  }

  /** Over the whole run: a dry run changes nothing, and without failures rows lost are rows counted deleted. */
  lemma {:induction false} RunAddsUp(p: Plan, rows: Rows, cats: seq<Id>, dryRun: bool)
    requires IsPlanFor(p, rows, cats)
    ensures dryRun ==> AllRows(p, rows, cats, dryRun) == rows
    ensures !dryRun && (forall c :: c in cats ==> !Fails(p.order(c), p.failsAt(c))) ==>
              |AllRows(p, rows, cats, dryRun)| + SumAlone(p, rows, cats, dryRun).deleted == |rows|
  {
    if cats != [] {
      var n := |cats| - 1;
      var c := cats[n];
      RunAddsUp(p, rows, cats[..n], dryRun);
      NextCatalog(p, rows, cats, dryRun, n);
      AllOf(cats);
      CatalogAddsUp(p.judge(c), AllRows(p, rows, cats[..n], dryRun), c, p.order(c), dryRun);
    }
  }

  /** The n-th catalog is met as it was, and reports what it would report alone. */
  lemma NextCatalog(p: Plan, rows: Rows, cats: seq<Id>, dryRun: bool, n: nat)
    requires IsPlanFor(p, rows, cats) && n < |cats|
    ensures var c, now := cats[n], AllRows(p, rows, cats[..n], dryRun);
            && IsSnapshot(now, c, p.order(c))
            && AllRows(p, rows, cats[..n + 1], dryRun) == RowsAfter(p.judge(c), now, p.order(c), dryRun, p.failsAt(c))
            && SumAlone(p, rows, cats[..n + 1], dryRun) ==
               Plus(SumAlone(p, rows, cats[..n], dryRun), Reported(p.judge(c), now, p.order(c), dryRun, p.failsAt(c)))
    ensures forall c :: c in cats[..n + 1] <==> c in cats[..n] || c == cats[n]
  {
    var c, now := cats[n], AllRows(p, rows, cats[..n], dryRun);
    assert cats[..n + 1] == cats[..n] + [c];
    assert cats[..n + 1][..n] == cats[..n];
    assert c in cats;
    CatalogsAreIndependent(p, rows, cats[..n], dryRun, c);
    ReportIsLocal(p.judge(c), now, rows, c, p.order(c), dryRun, p.failsAt(c));
  }
}
