/**
 What the two migration scripts take a collection id for, read off the `collections`
 table, and whether those verdicts have the shape the migration loop needs.
 */
module CollectionIds {
  import opened Options
  import opened IdMigration

  /** A row of `"{schema}".collections`. */
  datatype Collection = Collection(id: Id, externalId: Id, deleted: bool)

  /** `PRIMARY KEY (id)` and `UNIQUE (external_id) WHERE deleted_at IS NULL`. */
  ghost predicate Valid(cols: seq<Collection>) {
    && (forall i, j :: 0 <= i < |cols| && 0 <= j < |cols| && cols[i].id == cols[j].id ==> i == j)
    && (forall i, j :: 0 <= i < |cols| && 0 <= j < |cols| && !cols[i].deleted && !cols[j].deleted ==>
          cols[i].externalId == cols[j].externalId ==> i == j)
  }

  predicate IsLiveId(cols: seq<Collection>, c: Id) {
    exists i :: 0 <= i < |cols| && cols[i].id == c && !cols[i].deleted
  }

  /** `SELECT id ... WHERE external_id = :external_id AND deleted_at IS NULL`. */
  function InternalFor(cols: seq<Collection>, external: Id): Option<Id> {
    if cols == [] then None
    else if cols[0].externalId == external && !cols[0].deleted then Some(cols[0].id)
    else InternalFor(cols[1..], external)
  }

  /** The shape of a generated collection id: `col_` and 13 of the characters 2-9, a-x. */
  predicate IsInternalShape(c: Id) {
    && |c| == 17
    && c[..4] == "col_"
    && forall i :: 4 <= i < 17 ==> '2' <= c[i] <= '9' || 'a' <= c[i] <= 'x'
  }

  /** `generate_physical_name("col")` from the random bits: 13 digits to the base 32, most significant first. */
  const ALPHABET32 := "23456789abcdefghijklmnopqrstuvwx"

  function Base32(bits: nat, n: nat): string {
    if n == 0 then "" else Base32(bits / 32, n - 1) + [ALPHABET32[bits % 32]]
  }

  function Generated(bits: nat): Id { "col_" + Base32(bits, 13) }

  predicate IsDigit32(c: char) { '2' <= c <= '9' || 'a' <= c <= 'x' }

  function Digit32(c: char): (d: nat)
    requires IsDigit32(c)
    ensures d < 32 && ALPHABET32[d] == c
  {
    if c <= '9' then c as int - '2' as int else c as int - 'a' as int + 8
  }

  lemma {:induction false} Base32Shape(bits: nat, n: nat)
    ensures |Base32(bits, n)| == n && forall i :: 0 <= i < n ==> IsDigit32(Base32(bits, n)[i])
  {
    if n > 0 {
      Base32Shape(bits / 32, n - 1);
    }
  }

  lemma {:induction false} Base32Covers(s: string) returns (bits: nat)
    requires forall i :: 0 <= i < |s| ==> IsDigit32(s[i])
    ensures Base32(bits, |s|) == s
  {
    if s == "" {
      bits := 0;
    } else {
      var n := |s| - 1;
      var front := Base32Covers(s[..n]);
      bits := front * 32 + Digit32(s[n]);
      assert bits / 32 == front && bits % 32 == Digit32(s[n]);
      assert s == s[..n] + [s[n]];
    }
  }

  /** The shape is the generator's: exactly what it can produce looks like an internal id. */
  lemma ShapeIsGenerated(c: Id)
    ensures IsInternalShape(c) <==> exists bits: nat :: Generated(bits) == c
  {
    if IsInternalShape(c) {
      assert forall i :: 0 <= i < 13 ==> c[4..][i] == c[i + 4];
      var bits := Base32Covers(c[4..]);
      assert c == c[..4] + c[4..];
      assert Generated(bits) == c;
    }
    forall bits: nat | Generated(bits) == c
      ensures IsInternalShape(c)
    {
      Base32Shape(bits, 13);
      assert c[..4] == "col_" && forall i :: 4 <= i < 17 ==> c[i] == Base32(bits, 13)[i - 4];
    }
  }

  /** The resolved id, where the scripts take an empty id for none. */
  function Resolve(cols: seq<Collection>, c: Id): Verdict {
    match InternalFor(cols, c)
    case None => Orphan
    case Some(i) => if i == "" then Orphan else Move(i)
  }

  /** Styles: an id is internal when it is the id of a live collection. */
  function StylesJudge(cols: seq<Collection>): Judge {
    c => if IsLiveId(cols, c) then AlreadyInternal else Resolve(cols, c)
  }

  /** Configs: an id is internal when it looks like one. */
  function ConfigsJudge(cols: seq<Collection>): Judge {
    c => if IsInternalShape(c) then AlreadyInternal else Resolve(cols, c)
  }

  lemma {:induction false} InternalForFinds(cols: seq<Collection>, external: Id)
    ensures InternalFor(cols, external).Some? ==>
              exists i :: 0 <= i < |cols| && !cols[i].deleted && cols[i].externalId == external &&
                          cols[i].id == InternalFor(cols, external).value
    ensures InternalFor(cols, external).None? ==>
              forall i :: 0 <= i < |cols| ==> cols[i].deleted || cols[i].externalId != external
  {
    if cols != [] && !(cols[0].externalId == external && !cols[0].deleted) {
      InternalForFinds(cols[1..], external);
      if InternalFor(cols, external).Some? {
        var i :| 0 <= i < |cols[1..]| && !cols[1..][i].deleted && cols[1..][i].externalId == external &&
                 cols[1..][i].id == InternalFor(cols, external).value;
        assert cols[i + 1] == cols[1..][i];
      } else {
        forall i | 0 <= i < |cols|
          ensures cols[i].deleted || cols[i].externalId != external
        {
          if i > 0 { assert cols[i] == cols[1..][i - 1]; }
        }
      }
    }
  }

  lemma ResolveNames(cols: seq<Collection>, c: Id, to: Id)
    requires Valid(cols)
    ensures Resolve(cols, c) == Move(to) <==>
            to != "" && exists i :: 0 <= i < |cols| && cols[i] == Collection(to, c, false)
  {
    InternalForFinds(cols, c);
    if to != "" && exists i :: 0 <= i < |cols| && cols[i] == Collection(to, c, false) {
      var i :| 0 <= i < |cols| && cols[i] == Collection(to, c, false);
      var j :| 0 <= j < |cols| && !cols[j].deleted && cols[j].externalId == c && cols[j].id == InternalFor(cols, c).value;
      assert i == j;
    }
  }

  /** The styles script's three verdicts, read off the collections table. */
  lemma StylesVerdicts(cols: seq<Collection>, c: Id)
    requires Valid(cols)
    ensures StylesJudge(cols)(c) == AlreadyInternal <==> exists x :: x in cols && x.id == c && !x.deleted
    ensures StylesJudge(cols)(c) == Orphan <==>
            && (forall x :: x in cols && x.id == c ==> x.deleted)
            && (forall x :: x in cols && !x.deleted && x.externalId == c ==> x.id == "")
    ensures forall to :: StylesJudge(cols)(c) == Move(to) ==> Collection(to, c, false) in cols
  {
    InternalForFinds(cols, c);
    ResolvesTo(cols, c);
    if IsLiveId(cols, c) {
      var i :| 0 <= i < |cols| && cols[i].id == c && !cols[i].deleted;
      assert cols[i] in cols;
    }
  }

  /** The configs script's, where the shape of the id stands for asking the table. */
  lemma ConfigsVerdicts(cols: seq<Collection>, c: Id)
    requires Valid(cols)
    ensures ConfigsJudge(cols)(c) == AlreadyInternal <==> exists bits: nat :: Generated(bits) == c
    ensures ConfigsJudge(cols)(c) == Orphan <==>
            !IsInternalShape(c) && forall x :: x in cols && !x.deleted && x.externalId == c ==> x.id == ""
    ensures forall to :: ConfigsJudge(cols)(c) == Move(to) ==> Collection(to, c, false) in cols
  {
    ShapeIsGenerated(c);
    ResolvesTo(cols, c);
  }

  lemma ResolvesTo(cols: seq<Collection>, c: Id)
    requires Valid(cols)
    ensures Resolve(cols, c) == Orphan <==> forall x :: x in cols && !x.deleted && x.externalId == c ==> x.id == ""
    ensures Resolve(cols, c).Move? ==> Collection(Resolve(cols, c).to, c, false) in cols
    ensures Resolve(cols, c) != AlreadyInternal
  {
    InternalForFinds(cols, c);
    if Resolve(cols, c).Move? {
      ResolveNames(cols, c, Resolve(cols, c).to);
    }
    forall x | x in cols && !x.deleted && x.externalId == c && x.id != ""
      ensures Resolve(cols, c).Move?
    {
      var i :| 0 <= i < |cols| && cols[i] == x;
      assert cols[i] == Collection(x.id, c, false);
      ResolveNames(cols, c, x.id);
    }
  }

  /** A collection has one external id, so no two external ids share an internal one. */
  lemma JudgesAreInjective(cols: seq<Collection>)
    requires Valid(cols)
    ensures Injective(StylesJudge(cols)) && Injective(ConfigsJudge(cols))
  {
    forall a, b | Resolve(cols, a).Move? && Resolve(cols, a) == Resolve(cols, b)
      ensures a == b
    {
      ResolveNames(cols, a, Resolve(cols, a).to);
      ResolveNames(cols, b, Resolve(cols, a).to);
    }
  }

  /** The styles script asks the table, so what it resolves to is always an id it would leave alone. */
  lemma StylesTargetsStay(cols: seq<Collection>)
    requires Valid(cols)
    ensures TargetsStay(StylesJudge(cols)) && NoChain(StylesJudge(cols))
  {
    forall a | StylesJudge(cols)(a).Move?
      ensures !StylesJudge(cols)(StylesJudge(cols)(a).to).Move?
    {
      ResolveNames(cols, a, Resolve(cols, a).to);
    }
  }

  // ---------------------------------------------------------------- the styles script

  /**
   The styles migration, for every catalog and every order of its rows: dry-run counts are
   the commit's counts, a second commit does nothing, other catalogs and orphans stay, and
   the row under a live collection's internal id is the one that was there, else the one
   that stood under its external id (when that is not itself a live internal id).
   */
  lemma StylesMigrationCorrect(cols: seq<Collection>, rows: Rows, c: Id, order: seq<Key>)
    requires Valid(cols) && IsSnapshot(rows, c, order)
    ensures DryStats(StylesJudge(cols), rows, order) == CommitStats(StylesJudge(cols), rows, order)
    ensures IsMigrated(StylesJudge(cols), rows, c, Committed(StylesJudge(cols), rows, order))
    ensures Settles(StylesJudge(cols))
    ensures var after := Committed(StylesJudge(cols), rows, order);
            && (forall k :: k in rows && (k.catalog != c || !StylesJudge(cols)(k.coll).Move?) ==>
                  k in after && after[k] == rows[k])
            && (forall x, s :: x in cols && !x.deleted ==>
                  StyleFound(cols, rows, Key(c, x.id, s), Key(c, x.externalId, s), after))
  {
    var v := StylesJudge(cols);
    JudgesAreInjective(cols);
    StylesTargetsStay(cols);
    NoChainPredicts(v, rows, order);
    SettlesIff(v);
    CommitMigrates(v, rows, c, order);
    var after := Committed(v, rows, order);
    forall x, s | x in cols && !x.deleted
      ensures StyleFound(cols, rows, Key(c, x.id, s), Key(c, x.externalId, s), after)
    {
      StyleIsFound(cols, rows, c, x, s, after);
    }
  }

  /** What a lookup under the internal id finds after the migration. */
  ghost predicate StyleFound(cols: seq<Collection>, rows: Rows, internal: Key, external: Key, after: Rows) {
    if internal in rows then internal in after && after[internal] == rows[internal]
    else if internal.coll != "" && external in rows && !IsLiveId(cols, external.coll) then
      internal in after && after[internal] == rows[external]
    else internal !in after
  }

  /** A live collection is what its external id resolves to, unless that is itself a live id, and nothing else resolves to it. */
  lemma ExternalResolves(cols: seq<Collection>, x: Collection, other: Id)
    requires Valid(cols) && x in cols && !x.deleted
    ensures StylesJudge(cols)(x.id) == AlreadyInternal
    ensures x.id != "" && !IsLiveId(cols, x.externalId) ==> StylesJudge(cols)(x.externalId) == Move(x.id)
    ensures StylesJudge(cols)(other) == Move(x.id) ==>
              other == x.externalId && x.id != "" && !IsLiveId(cols, x.externalId)
  {
    var n :| 0 <= n < |cols| && cols[n] == x;
    assert cols[n] == Collection(x.id, x.externalId, false);
    ResolveNames(cols, x.externalId, x.id);
    ResolveNames(cols, other, x.id);
  }

  lemma StyleIsFound(cols: seq<Collection>, rows: Rows, c: Id, x: Collection, s: Id, after: Rows)
    requires Valid(cols) && x in cols && !x.deleted
    requires IsMigrated(StylesJudge(cols), rows, c, after)
    ensures StyleFound(cols, rows, Key(c, x.id, s), Key(c, x.externalId, s), after)
  {
    var v := StylesJudge(cols);
    var internal, external := Key(c, x.id, s), Key(c, x.externalId, s);
    ExternalResolves(cols, x, x.externalId);
    if internal !in rows && internal in after {
      var d :| d in rows && d.catalog == c && Target(v, d) == Some(internal) && after[internal] == rows[d];
      ExternalResolves(cols, x, d.coll);
      assert d == external;
    }
    if external in rows && v(x.externalId) == Move(x.id) {
      assert Target(v, external) == Some(internal);
    }
  }

  // ---------------------------------------------------------------- the configs script

  /** Some live collection of this external id would be resolved to. */
  predicate IsResolvable(cols: seq<Collection>, c: Id) {
    exists i :: 0 <= i < |cols| && !cols[i].deleted && cols[i].externalId == c && cols[i].id != ""
  }

  /** No hand-made (not generated) id that rows may be moved to is also in use as some collection's external id. */
  predicate IdSpacesDisjoint(cols: seq<Collection>) {
    forall i :: 0 <= i < |cols| && !cols[i].deleted && cols[i].id != "" && !IsInternalShape(cols[i].externalId) ==>
      IsInternalShape(cols[i].id) || !IsResolvable(cols, cols[i].id)
  }

  /** The same, but forgiving a collection whose id is its own external id. */
  predicate IdSpacesUnchained(cols: seq<Collection>) {
    forall i :: 0 <= i < |cols| && !cols[i].deleted && cols[i].id != "" && !IsInternalShape(cols[i].externalId) &&
                cols[i].id != cols[i].externalId ==>
      IsInternalShape(cols[i].id) || !IsResolvable(cols, cols[i].id)
  }

  lemma ResolvableMoves(cols: seq<Collection>, c: Id)
    requires Valid(cols)
    ensures Resolve(cols, c).Move? <==> IsResolvable(cols, c)
  {
    if IsResolvable(cols, c) {
      var i :| 0 <= i < |cols| && !cols[i].deleted && cols[i].externalId == c && cols[i].id != "";
      assert cols[i] == Collection(cols[i].id, c, false);
      ResolveNames(cols, c, cols[i].id);
    }
    if Resolve(cols, c).Move? {
      ResolveNames(cols, c, Resolve(cols, c).to);
    }
  }

  lemma ConfigsTargetsStayIff(cols: seq<Collection>)
    requires Valid(cols)
    ensures TargetsStay(ConfigsJudge(cols)) <==> IdSpacesDisjoint(cols)
    ensures NoChain(ConfigsJudge(cols)) <==> IdSpacesUnchained(cols)
  {
    var v := ConfigsJudge(cols);
    forall i | 0 <= i < |cols| && !cols[i].deleted && cols[i].id != "" && !IsInternalShape(cols[i].externalId)
      ensures v(cols[i].externalId) == Move(cols[i].id)
      ensures v(cols[i].id).Move? <==> !IsInternalShape(cols[i].id) && IsResolvable(cols, cols[i].id)
    {
      assert cols[i] == Collection(cols[i].id, cols[i].externalId, false);
      ResolveNames(cols, cols[i].externalId, cols[i].id);
      ResolvableMoves(cols, cols[i].id);
    }
    forall a | v(a).Move?
      ensures exists i :: 0 <= i < |cols| && cols[i] == Collection(v(a).to, a, false) && v(a).to != ""
    {
      ResolveNames(cols, a, v(a).to);
    }
  }

  /**
   The configs migration keeps each of its promises exactly as far as the id spaces are kept
   apart; in particular all of them when every live id has the generated shape.
   */
  lemma ConfigsMigrationIff(cols: seq<Collection>)
    requires Valid(cols)
    ensures DryRunPredicts(ConfigsJudge(cols)) <==> IdSpacesUnchained(cols)
    ensures Settles(ConfigsJudge(cols)) <==> IdSpacesUnchained(cols)
    ensures ReachesTargets(ConfigsJudge(cols)) <==> IdSpacesDisjoint(cols)
    ensures Migrates(ConfigsJudge(cols)) <==> IdSpacesDisjoint(cols)
    ensures (forall i :: 0 <= i < |cols| && !cols[i].deleted ==> IsInternalShape(cols[i].id)) ==> IdSpacesDisjoint(cols)
    ensures IdSpacesDisjoint(cols) ==> IdSpacesUnchained(cols)
  {
    JudgesAreInjective(cols);
    ConfigsTargetsStayIff(cols);
    DryRunPredictsIff(ConfigsJudge(cols));
    SettlesIff(ConfigsJudge(cols));
    ReachesTargetsIff(ConfigsJudge(cols));
    MigratesIff(ConfigsJudge(cols));
  }

  /** A collection whose hand-made id is also its external id loses its configuration: the row is its own collision. */
  lemma SelfNamedCollectionLosesConfig(name: Id, c: Id, ref: Id, config: Row)
    requires name != "" && !IsInternalShape(name)
    ensures var cols := [Collection(name, name, false)];
            var k := Key(c, name, ref);
            && Valid(cols) && IsSnapshot(map[k := config], c, [k])
            && Committed(ConfigsJudge(cols), map[k := config], [k]) == map[]
            && CommitStats(ConfigsJudge(cols), map[k := config], [k]).deleted == 1
  {
    var k := Key(c, name, ref);
    var v := ConfigsJudge([Collection(name, name, false)]);
    assert v(name) == Move(name);
    assert [k][..0] == [];
    assert Committed(v, map[k := config], []) == map[k := config];
    assert Committed(v, map[k := config], [k]) == CommitRow(v, map[k := config], k);
    assert CommitStats(v, map[k := config], []) == Stats(0, 0, 0, 0, 0);
  }
}
