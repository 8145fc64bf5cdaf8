/**
 What a rendered upsert does to a table with a unique key: read back as SQL and run, it
 is a put.
 */
module UpsertMeaning {
  import opened Options
  import opened SqlText

  type Row = map<string, string>
  type Rows = set<Row>

  // ---------------------------------------------------------------- the meaning of a statement

  /** The two rows agree on the conflict target. */
  ghost predicate SameKey(conflict: seq<string>, r: Row, r': Row) {
    forall c :: c in conflict ==> c in r && c in r' && r[c] == r'[c]
  }

  /** `SET target = EXCLUDED.source` for each pair in turn. */
  function Assign(r: Row, proposed: Row, sets: seq<seq<string>>): Row {
    if sets == [] then r
    else
      var before, last := Assign(r, proposed, sets[..|sets| - 1]), sets[|sets| - 1];
      if |last| == 2 && last[1] in proposed then before[last[0] := proposed[last[1]]] else before
  }

  /** One assignment: the target column takes the proposed row's source column. */
  lemma AssignOne(r: Row, proposed: Row, target: string, source: string)
    requires source in proposed
    ensures Assign(r, proposed, [[target, source]]) == r[target := proposed[source]]
  {
    assert [[target, source]][..0] == [];
  }

  /** Inserts the proposed row, or, where one with its key is there, carries out the assignments on that one. */
  ghost function Run(conflict: seq<string>, sets: seq<seq<string>>, t: Rows, proposed: Row): Rows {
    if Present(conflict, t, proposed)
    then set r | r in t :: if SameKey(conflict, r, proposed) then Assign(r, proposed, sets) else r
    else t + {proposed}
  }

  ghost predicate Present(conflict: seq<string>, t: Rows, proposed: Row) {
    exists r :: r in t && SameKey(conflict, r, proposed)
  }

  function Names(readings: seq<seq<string>>): seq<string> {
    if readings == [] then []
    else Names(readings[..|readings| - 1]) + (if |readings[|readings| - 1]| == 1 then readings[|readings| - 1] else [])
  }

  predicate NoRepeats(names: seq<string>) {
    forall i, j :: 0 <= i < j < |names| ==> names[i] != names[j]
  }

  /** The columns a SET clause assigns to. */
  function Targets(sets: seq<seq<string>>): seq<string> {
    seq(|sets|, i requires 0 <= i < |sets| => if sets[i] == [] then "" else sets[i][0])
  }

  /** What an expression is worth: a bind parameter what was passed for it, anything else what the database makes of it. */
  function Worth(params: map<string, string>, eval: string -> string, e: string): string {
    var bound := BindName(e);
    if bound.Some? && bound.value in params then params[bound.value] else eval(e)
  }

  /** The row the VALUES clause proposes: the i-th column the worth of the i-th expression, the rest their defaults. */
  function Propose(columns: seq<string>, values: seq<string>, params: map<string, string>, eval: string -> string, defaults: Row): Row
    requires |columns| == |values|
  {
    if columns == [] then defaults
    else
      var n := |columns| - 1;
      Propose(columns[..n], values[..n], params, eval, defaults)[columns[n] := Worth(params, eval, values[n])]
  }

  /**
   The database refuses a statement that names a column twice, to insert or to assign, or
   whose values do not match its columns in number; otherwise it runs it on what it proposes.
   */
  ghost function RunStatement(st: Statement, t: Rows, params: map<string, string>, eval: string -> string, defaults: Row): Option<Rows> {
    var columns := Names(st.columns);
    if NoRepeats(columns) && NoRepeats(Targets(st.sets)) && |columns| == |st.values|
    then Some(Run(Names(st.conflict), st.sets, t, Propose(columns, st.values, params, eval, defaults)))
    else None
  }

  /** A table with a unique key: full rows, no two with the same key. */
  ghost predicate Keyed(conflict: seq<string>, schema: set<string>, t: Rows) {
    && (forall r :: r in t ==> r.Keys == schema)
    && (forall r, r' :: r in t && r' in t && SameKey(conflict, r, r') ==> r == r')
  }

  // ---------------------------------------------------------------- small facts

  lemma {:induction false} NamesOfReadings(names: seq<string>)
    ensures Names(Readings(Column, names)) == names
  {
    if names != [] {
      var n := |names| - 1;
      NamesOfReadings(names[..n]);
      assert Readings(Column, names)[..n] == Readings(Column, names[..n]);
      assert names == names[..n] + [names[n]];
    }
  }

  lemma {:induction false} ProposeAt(columns: seq<string>, literals: map<string, string>, params: map<string, string>,
                                     eval: string -> string, defaults: Row)
    ensures var p := Propose(columns, ValueTexts(literals, columns), params, eval, defaults);
            && p.Keys == defaults.Keys + (set c | c in columns)
            && (forall c :: c in columns ==> p[c] == Worth(params, eval, ValueText(literals, c)))
            && (forall c :: c in defaults && c !in columns ==> p[c] == defaults[c])
  {
    if columns != [] {
      var n := |columns| - 1;
      ProposeAt(columns[..n], literals, params, eval, defaults);
      ProposeStep(columns, literals, params, eval, defaults);
      assert columns == columns[..n] + [columns[n]];
    }
  }

  lemma ProposeStep(columns: seq<string>, literals: map<string, string>, params: map<string, string>,
                    eval: string -> string, defaults: Row)
    requires columns != []
    ensures var n := |columns| - 1;
            Propose(columns, ValueTexts(literals, columns), params, eval, defaults) ==
            Propose(columns[..n], ValueTexts(literals, columns[..n]), params, eval, defaults)
              [columns[n] := Worth(params, eval, ValueText(literals, columns[n]))]
  {
    var n := |columns| - 1;
    assert ValueTexts(literals, columns)[..n] == ValueTexts(literals, columns[..n]);
  }

  /** The row that takes the place of the one with the proposed key: listed columns refreshed, the rest kept. */
  ghost function Merged(update: seq<string>, r: Row, proposed: Row): Row {
    map c | c in r :: if c in update && c in proposed then proposed[c] else r[c]
  }

  lemma MergeOneMore(update: seq<string>, u: string, r: Row, proposed: Row)
    requires u in r && u in proposed
    ensures Merged(update + [u], r, proposed) == Merged(update, r, proposed)[u := proposed[u]]
  {
  }

  lemma AssignOneMore(r: Row, proposed: Row, update: seq<string>, u: string)
    requires u in proposed
    ensures Assign(r, proposed, Readings(Assignment, update + [u])) ==
            Assign(r, proposed, Readings(Assignment, update))[u := proposed[u]]
  {
    var more := Readings(Assignment, update + [u]);
    assert more[..|update|] == Readings(Assignment, update);
    assert more[|update|] == [u, u];
  }

  lemma {:induction false} AssignMerges(r: Row, proposed: Row, update: seq<string>)
    requires r.Keys == proposed.Keys && forall u :: u in update ==> u in r
    ensures Assign(r, proposed, Readings(Assignment, update)) == Merged(update, r, proposed)
  {
    if update != [] {
      var before, u := update[..|update| - 1], update[|update| - 1];
      assert update == before + [u];
      AssignMerges(r, proposed, before);
      AssignOneMore(r, proposed, before, u);
      MergeOneMore(before, u, r, proposed);
    }
  }

  /** Assignments never move a row to another key: what they write there is what is there. */
  lemma MergeKeepsKey(conflict: seq<string>, update: seq<string>, r: Row, proposed: Row)
    requires SameKey(conflict, r, proposed)
    ensures SameKey(conflict, Merged(update, r, proposed), proposed)
    ensures forall s: Row :: SameKey(conflict, s, r) <==> SameKey(conflict, s, proposed)
    ensures forall s: Row :: SameKey(conflict, s, Merged(update, r, proposed)) <==> SameKey(conflict, s, proposed)
  {
  }

  // ---------------------------------------------------------------- any upsert

  lemma ReplaceOne(t: Rows, r: Row, m: Row)
    requires r in t
    ensures (set s | s in t :: if s == r then m else s) == t - {r} + {m}
  {
    var t' := set s | s in t :: if s == r then m else s;
    forall s | s in t - {r}
      ensures s in t'
    {
    }
    assert (if r == r then m else r) in t';
  }

  lemma ReplaceKeepsKeyed(conflict: seq<string>, schema: set<string>, t: Rows, r: Row, m: Row)
    requires Keyed(conflict, schema, t) && r in t && m.Keys == schema && SameKey(conflict, r, m)
    ensures Keyed(conflict, schema, t - {r} + {m})
  {
    forall s | s in t && s != r
      ensures !SameKey(conflict, s, m) && !SameKey(conflict, m, s)
    {
      assert !SameKey(conflict, s, r);
    }
  }

  /** One run, in terms of the row that was there. */
  lemma RunReplaces(conflict: seq<string>, schema: set<string>, update: seq<string>, t: Rows, proposed: Row, r: Row)
    requires Keyed(conflict, schema, t) && proposed.Keys == schema && forall u :: u in update ==> u in schema
    requires r in t && SameKey(conflict, r, proposed)
    ensures Run(conflict, Readings(Assignment, update), t, proposed) == t - {r} + {Merged(update, r, proposed)}
    ensures Keyed(conflict, schema, t - {r} + {Merged(update, r, proposed)})
  {
    var m := Merged(update, r, proposed);
    AssignMerges(r, proposed, update);
    MergeKeepsKey(conflict, update, r, proposed);
    ReplaceKeepsKeyed(conflict, schema, t, r, m);
    ReplaceOne(t, r, m);
    forall s | s in t
      ensures SameKey(conflict, s, proposed) <==> s == r
    {
    }
    assert Run(conflict, Readings(Assignment, update), t, proposed) == set s | s in t :: if s == r then m else s;
  }

  lemma RunInserts(conflict: seq<string>, schema: set<string>, update: seq<string>, t: Rows, proposed: Row)
    requires Keyed(conflict, schema, t) && proposed.Keys == schema && !Present(conflict, t, proposed)
    ensures Run(conflict, Readings(Assignment, update), t, proposed) == t + {proposed}
    ensures Keyed(conflict, schema, t + {proposed})
  {
    forall r | r in t
      ensures !SameKey(conflict, r, proposed) && !SameKey(conflict, proposed, r)
    {
    }
  }

  /** The one row with the proposed key after a run. */
  ghost predicate Stored(conflict: seq<string>, update: seq<string>, t: Rows, proposed: Row, r': Row) {
    && SameKey(conflict, r', proposed)
    && (Present(conflict, t, proposed) ==>
          exists r :: r in t && SameKey(conflict, r, proposed) && r' == Merged(update, r, proposed))
    && (!Present(conflict, t, proposed) ==> r' == proposed)
  }

  /**
   Every upsert keeps the key unique, stores one row under the proposed key, touches no
   row with another key, and run again with the same values changes nothing.
   */
  ghost predicate Lawful(conflict: seq<string>, schema: set<string>, update: seq<string>, t: Rows, proposed: Row, r': Row) {
    var t' := Run(conflict, Readings(Assignment, update), t, proposed);
    && Keyed(conflict, schema, t')
    && r' in t' && Stored(conflict, update, t, proposed, r')
    && (forall s :: !SameKey(conflict, s, proposed) ==> (s in t' <==> s in t))
    && Run(conflict, Readings(Assignment, update), t', proposed) == t'
  }

  lemma OthersStay(conflict: seq<string>, t: Rows, proposed: Row, r: Row, m: Row)
    requires SameKey(conflict, r, proposed) && SameKey(conflict, m, proposed)
    ensures forall s :: !SameKey(conflict, s, proposed) ==> (s in t - {r} + {m} <==> s in t)
  {
  }

  lemma InsertedOthersStay(conflict: seq<string>, t: Rows, proposed: Row)
    requires SameKey(conflict, proposed, proposed)
    ensures forall s :: !SameKey(conflict, s, proposed) ==> (s in t + {proposed} <==> s in t)
  {
  }

  lemma MergedAgain(conflict: seq<string>, update: seq<string>, r: Row, proposed: Row)
    requires SameKey(conflict, r, proposed)
    ensures SameKey(conflict, Merged(update, r, proposed), proposed)
    ensures Merged(update, Merged(update, r, proposed), proposed) == Merged(update, r, proposed)
  {
  }

  lemma ReplacingIsLawful(conflict: seq<string>, schema: set<string>, update: seq<string>, t: Rows, proposed: Row, r: Row)
    requires Keyed(conflict, schema, t) && proposed.Keys == schema && forall u :: u in update ==> u in schema
    requires r in t && SameKey(conflict, r, proposed)
    ensures Lawful(conflict, schema, update, t, proposed, Merged(update, r, proposed))
  {
    var m := Merged(update, r, proposed);
    RunReplaces(conflict, schema, update, t, proposed, r);
    MergedAgain(conflict, update, r, proposed);
    RunAgain(conflict, schema, update, t - {r} + {m}, proposed, m);
    OthersStay(conflict, t, proposed, r, m);
    assert Stored(conflict, update, t, proposed, m);
  }

  lemma InsertingIsLawful(conflict: seq<string>, schema: set<string>, update: seq<string>, t: Rows, proposed: Row)
    requires Keyed(conflict, schema, t) && proposed.Keys == schema && forall u :: u in update ==> u in schema
    requires forall c :: c in conflict ==> c in schema
    requires !Present(conflict, t, proposed)
    ensures Lawful(conflict, schema, update, t, proposed, proposed)
  {
    RunInserts(conflict, schema, update, t, proposed);
    assert Merged(update, proposed, proposed) == proposed;
    RunAgain(conflict, schema, update, t + {proposed}, proposed, proposed);
    InsertedOthersStay(conflict, t, proposed);
    assert Stored(conflict, update, t, proposed, proposed);
  }

  lemma UpsertLaws(conflict: seq<string>, schema: set<string>, update: seq<string>, t: Rows, proposed: Row) returns (r': Row)
    requires Keyed(conflict, schema, t) && proposed.Keys == schema
    requires (forall u :: u in update ==> u in schema) && (forall c :: c in conflict ==> c in schema)
    ensures Lawful(conflict, schema, update, t, proposed, r')
  {
    if Present(conflict, t, proposed) {
      var r :| r in t && SameKey(conflict, r, proposed);
      ReplacingIsLawful(conflict, schema, update, t, proposed, r);
      r' := Merged(update, r, proposed);
    } else {
      InsertingIsLawful(conflict, schema, update, t, proposed);
      r' := proposed;
    }
  }

  lemma RunAgain(conflict: seq<string>, schema: set<string>, update: seq<string>, t: Rows, proposed: Row, r: Row)
    requires Keyed(conflict, schema, t) && proposed.Keys == schema && forall u :: u in update ==> u in schema
    requires r in t && SameKey(conflict, r, proposed) && Merged(update, r, proposed) == r
    ensures Run(conflict, Readings(Assignment, update), t, proposed) == t
  {
    RunReplaces(conflict, schema, update, t, proposed, r);
  }

  // ---------------------------------------------------------------- when it is a put

  /** After any run, the stored row has the proposed value in every listed column. */
  ghost predicate IsPut(columns: seq<string>, conflict: seq<string>, update: seq<string>) {
    forall r: Row, p: Row, c ::
      r.Keys == p.Keys && SameKey(conflict, r, p) && c in columns && c in r ==> Merged(update, r, p)[c] == p[c]
  }

  /** Exactly when every listed column is in the conflict target or refreshed. */
  lemma IsPutIff(columns: seq<string>, conflict: seq<string>, update: seq<string>)
    ensures IsPut(columns, conflict, update) <==> forall c :: c in columns ==> c in conflict || c in update
  {
    if c :| c in columns && c !in conflict && c !in update {
      var keys := (set x | x in conflict) + {c};
      var r: Row := map x | x in keys :: "";
      var p: Row := r[c := "new"];
      assert r.Keys == p.Keys && SameKey(conflict, r, p);
      assert Merged(update, r, p)[c] != p[c];
    }
  }

  lemma TargetsOfReadings(update: seq<string>)
    ensures Targets(Readings(Assignment, update)) == update
  {
  }

  lemma {:induction false} DefaultUpdateNoRepeats(columns: seq<string>, conflict: seq<string>)
    requires NoRepeats(columns)
    ensures NoRepeats(DefaultUpdate(columns, conflict))
    ensures forall c :: c in DefaultUpdate(columns, conflict) ==> c in columns
  {
    if columns != [] {
      DefaultUpdateNoRepeats(columns[1..], conflict);
      assert columns == [columns[0]] + columns[1..];
      assert columns[0] !in columns[1..];
    }
  }

  /** What a column is to hold: what was passed for it, or what its literal is worth. */
  function Intended(literals: map<string, string>, params: map<string, string>, eval: string -> string, c: string): string {
    if c in literals then Worth(params, eval, literals[c]) else if c in params then params[c] else eval(":" + c)
  }

  /** Literals are whole expressions, and a column without one has a name a parameter can have. */
  predicate Bindable(literals: map<string, string>, columns: seq<string>) {
    forall i :: 0 <= i < |columns| ==>
      if columns[i] in literals then Contained(literals[columns[i]]) else IsWord(columns[i])
  }

  lemma BindableTexts(literals: map<string, string>, columns: seq<string>, params: map<string, string>, eval: string -> string)
    requires Bindable(literals, columns)
    ensures AllContained(ValueTexts(literals, columns))
    ensures forall c :: c in columns ==> Worth(params, eval, ValueText(literals, c)) == Intended(literals, params, eval, c)
  {
    forall i | 0 <= i < |columns|
      ensures Contained(ValueTexts(literals, columns)[i])
      ensures Worth(params, eval, ValueText(literals, columns[i])) == Intended(literals, params, eval, columns[i])
    {
      if columns[i] !in literals {
        BindsOwnNameIff(literals, columns[i]);
      }
    }
  }

  /**
   The statement as rendered with the default update columns, read back and run on the values
   it carries itself: refused if a column is named twice, and otherwise a put.  The stored row
   has the intended value in every listed column and keeps the others, the rest of the table
   is as it was, and repeating the statement changes nothing.
   */
  lemma UpsertIsPut(table: string, columns: seq<string>, conflict: seq<string>, literals: map<string, string>,
                    returning: seq<string>, params: map<string, string>, eval: string -> string, defaults: Row, t: Rows)
      returns (st: Statement, p: Row, r': Row)
    requires columns != [] && conflict != [] && AllProper(columns) && AllProper(conflict) && AllProper(returning)
    requires Bindable(literals, columns)
    requires var schema := defaults.Keys + (set c | c in columns);
             (forall c :: c in conflict ==> c in schema) && Keyed(conflict, schema, t)
    ensures var built := BuildUpsert(table, columns, conflict, None, literals, returning);
            built.Sql? && ReadStatement(table, built.text) == Some(st)
    ensures (forall c :: c in columns ==> c in p && p[c] == Intended(literals, params, eval, c))
    ensures (forall c :: c in defaults && c !in columns ==> c in p && p[c] == defaults[c])
    ensures var ran := RunStatement(st, t, params, eval, defaults);
            && (ran.Some? <==> NoRepeats(columns))
            && (ran.Some? ==>
                  var t' := ran.value;
                  && r' in t' && SameKey(conflict, r', p)
                  && (forall c :: c in columns ==> c in r' && r'[c] == Intended(literals, params, eval, c))
                  && (forall r, c :: r in t && SameKey(conflict, r, p) && c in r && c !in columns ==> c in r' && r'[c] == r[c])
                  && (forall s :: !SameKey(conflict, s, p) ==> (s in t' <==> s in t))
                  && RunStatement(st, t', params, eval, defaults) == ran)
  {
    BindableTexts(literals, columns, params, eval);
    UpsertReadsBack(table, columns, conflict, None, literals, returning);
    st := ReadStatement(table, BuildUpsert(table, columns, conflict, None, literals, returning).text).value;
    NamesOfReadings(columns);
    NamesOfReadings(conflict);
    TargetsOfReadings(DefaultUpdate(columns, conflict));
    if NoRepeats(columns) {
      DefaultUpdateNoRepeats(columns, conflict);
    }
    p := Propose(columns, ValueTexts(literals, columns), params, eval, defaults);
    ProposeAt(columns, literals, params, eval, defaults);
    r' := PutLaws(columns, conflict, defaults.Keys + (set c | c in columns), t, p);
  }

  lemma PutLaws(columns: seq<string>, conflict: seq<string>, schema: set<string>, t: Rows, p: Row) returns (r': Row)
    requires AllProper(columns) && Keyed(conflict, schema, t) && p.Keys == schema
    requires (forall c :: c in columns ==> c in schema) && (forall c :: c in conflict ==> c in schema)
    ensures var sets := Readings(Assignment, DefaultUpdate(columns, conflict));
            var t' := Run(conflict, sets, t, p);
            && r' in t' && SameKey(conflict, r', p)
            && (forall c :: c in columns ==> c in r' && r'[c] == p[c])
            && (forall r, c :: r in t && SameKey(conflict, r, p) && c in r && c !in columns ==> c in r' && r'[c] == r[c])
            && (forall s :: !SameKey(conflict, s, p) ==> (s in t' <==> s in t))
            && Run(conflict, sets, t', p) == t'
  {
    var update := DefaultUpdate(columns, conflict);
    DefaultUpdateProper(columns, conflict);
    r' := UpsertLaws(conflict, schema, update, t, p);
    if Present(conflict, t, p) {
      var r :| r in t && SameKey(conflict, r, p) && r' == Merged(update, r, p);
      MergeKeepsKey(conflict, update, r, p);
      forall s | s in t && SameKey(conflict, s, p)
        ensures s == r
      {
      }
    }
  }
}
