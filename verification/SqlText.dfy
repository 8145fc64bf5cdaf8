/**
 SQL text: `quote_ident` and `build_upsert`, read back by the delimited-identifier rule of
 section 5.2 of ISO/IEC 9075-2, and what the statement read back does to a table.
 */
module SqlText {
  import opened Options

  // ---------------------------------------------------------------- quoting

  /** Starts and ends with a double quote; a lone double quote does both at once. */
  predicate Wrapped(s: string) { s != "" && s[0] == '"' && s[|s| - 1] == '"' }

  function Doubled(s: string): string {
    if s == "" then "" else DoubledChar(s[0]) + Doubled(s[1..])
  }

  function QuoteIdent(s: string, allowStar: bool): string {
    if allowStar && s == "*" then s
    else if Wrapped(s) then s
    else "\"" + Doubled(s) + "\""
  }

  function Quote(s: string): string { QuoteIdent(s, false) }

  lemma QuoteIsIdempotent(s: string, allowStar: bool)
    ensures QuoteIdent(QuoteIdent(s, allowStar), allowStar) == QuoteIdent(s, allowStar)
    ensures QuoteIdent(Quote(s), allowStar) == Quote(s)
  {
  }

  // ---------------------------------------------------------------- reading a delimited identifier

  datatype Scanned = Scanned(name: string, rest: string)

  /** After the opening quote: a doubled quote stands for one, a single one ends the identifier. */
  function ScanBody(t: string): (r: Option<Scanned>)
    ensures r.Some? ==> |r.value.name| + |r.value.rest| < |t|
  {
    if t == "" then None
    else if t[0] != '"' then Prepend(t[0], ScanBody(t[1..]))
    else if |t| > 1 && t[1] == '"' then Prepend('"', ScanBody(t[2..]))
    else Some(Scanned("", t[1..]))
  }

  function Prepend(c: char, r: Option<Scanned>): Option<Scanned> {
    if r.None? then None else Some(Scanned([c] + r.value.name, r.value.rest))
  }

  /** A delimited identifier at the front of `t`; its body is not empty. */
  function ScanIdent(t: string): (r: Option<Scanned>)
    ensures r.Some? ==> |r.value.name| + |r.value.rest| + 1 < |t|
  {
    if t == "" || t[0] != '"' then None
    else
      var r := ScanBody(t[1..]);
      if r.Some? && r.value.name != "" then r else None
  }

  /** The name a piece of text denotes when it is one delimited identifier and nothing else. */
  function Denotes(t: string): Option<string> {
    var r := ScanIdent(t);
    if r.Some? && r.value.rest == "" then Some(r.value.name) else None
  }

  /** What may follow a quoted name without being read as part of it. */
  predicate Parts(tail: string) { tail == "" || tail[0] != '"' }

  lemma ScanStep(c: char, rest: string)
    ensures c != '"' ==> ScanBody([c] + rest) == Prepend(c, ScanBody(rest))
    ensures ScanBody("\"\"" + rest) == Prepend('"', ScanBody(rest))
    ensures Parts(rest) ==> ScanBody("\"" + rest) == Some(Scanned("", rest))
  {
    assert ([c] + rest)[1..] == rest;
    assert ("\"\"" + rest)[2..] == rest;
    assert ("\"" + rest)[1..] == rest;
  }

  lemma Regrouped(a: string, b: string, c: string)
    ensures (a + b) + c == a + (b + c)
  {
  }

  /** One character doubled if it is a quote. */
  function DoubledChar(c: char): string { if c == '"' then "\"\"" else [c] }

  lemma DoubledStep(s: string, t: string)
    requires s != ""
    ensures Doubled(s) + t == DoubledChar(s[0]) + (Doubled(s[1..]) + t)
  {
    Regrouped(DoubledChar(s[0]), Doubled(s[1..]), t);
  }

  lemma HeadFirst(s: string)
    requires s != ""
    ensures [s[0]] + s[1..] == s
  {
  }

  lemma {:induction false} BodyReadsBack(s: string, tail: string)
    requires Parts(tail)
    ensures ScanBody(Doubled(s) + ("\"" + tail)) == Some(Scanned(s, tail))
  {
    var t := "\"" + tail;
    if s == "" {
      ScanStep('"', tail);
      assert Doubled(s) + t == t;
    } else {
      BodyReadsBack(s[1..], tail);
      ScanStep(s[0], Doubled(s[1..]) + t);
      DoubledStep(s, t);
      HeadFirst(s);
    }
  }

  /** The names quoting is made for: not empty, and not wrapped in quotes already. */
  predicate Proper(s: string) { s != "" && !Wrapped(s) }

  lemma ProperReadsBack(s: string, tail: string)
    requires Proper(s) && Parts(tail)
    ensures ScanIdent(Quote(s) + tail) == Some(Scanned(s, tail))
  {
    BodyReadsBack(s, tail);
    Unwrapped(Doubled(s), tail);
  }

  lemma Unwrapped(body: string, tail: string)
    ensures (("\"" + body + "\"") + tail)[0] == '"'
    ensures (("\"" + body + "\"") + tail)[1..] == body + ("\"" + tail)
  {
  }

  /** Quoting keeps a name exactly when it is proper; any other name comes out as another one, or as none. */
  lemma QuoteKeepsNameIff(s: string)
    ensures Denotes(Quote(s)) == Some(s) <==> Proper(s)
  {
    if Proper(s) {
      ProperReadsBack(s, "");
      assert Quote(s) + "" == Quote(s);
    } else if s == "" {
      assert Quote(s) == "\"\"";
    }
  }

  /** Two proper names never meet; a proper name always meets the wrapped name that is its own quoted form. */
  lemma QuoteSeparatesProperNames(s: string, s': string)
    requires Proper(s)
    ensures Proper(s') && Quote(s) == Quote(s') ==> s == s'
    ensures Quote(s) != s && Quote(Quote(s)) == Quote(s)
  {
    QuoteKeepsNameIff(s);
    QuoteKeepsNameIff(s');
  }

  // ---------------------------------------------------------------- lists of names

  predicate AllProper(names: seq<string>) { forall i :: 0 <= i < |names| ==> Proper(names[i]) }

  /** What an item of a list comes out as: a name, or an assignment of a column from the proposed row. */
  datatype Kind = Column | Assignment | Returned

  function Item(k: Kind, c: string): string {
    match k
    case Column => Quote(c)
    case Assignment => Quote(c) + (" = EXCLUDED." + Quote(c))
    case Returned => QuoteIdent(c, true)
  }

  function List(k: Kind, names: seq<string>): string
    requires names != []
  {
    if |names| == 1 then Item(k, names[0]) else Item(k, names[0]) + (", " + List(k, names[1..]))
  }

  /** What is left of `t` after a piece of text it starts with. */
  function Strip(p: string, t: string): (r: Option<string>)
    ensures r.Some? ==> |r.value| + |p| == |t|
  {
    if p <= t then Some(t[|p|..]) else None
  }

  lemma StripFront(p: string, tail: string)
    ensures Strip(p, p + tail) == Some(tail)
  {
  }

  /** Reads one item; an assignment is read as its pair of names, target then source. */
  function ScanItem(k: Kind, t: string): (r: Option<(seq<string>, string)>)
    ensures r.Some? ==> |r.value.1| < |t|
  {
    if k.Returned? && Strip("*", t).Some? then Some((["*"], Strip("*", t).value))
    else
      var target := ScanIdent(t);
      if target.None? then None
      else if !k.Assignment? then Some(([target.value.name], target.value.rest))
      else
        var more := Strip(" = EXCLUDED.", target.value.rest);
        if more.None? then None
        else
          var source := ScanIdent(more.value);
          if source.None? then None else Some(([target.value.name, source.value.name], source.value.rest))
  }

  function ScanList(k: Kind, t: string): Option<(seq<seq<string>>, string)>
    decreases |t|
  {
    var first := ScanItem(k, t);
    if first.None? then None
    else
      var more := Strip(", ", first.value.1);
      if more.None? then Some(([first.value.0], first.value.1))
      else
        var others := ScanList(k, more.value);
        if others.None? then None else Some(([first.value.0] + others.value.0, others.value.1))
  }

  function Reading(k: Kind, c: string): seq<string> { if k.Assignment? then [c, c] else [c] }

  function Readings(k: Kind, names: seq<string>): seq<seq<string>> {
    seq(|names|, i requires 0 <= i < |names| => Reading(k, names[i]))
  }

  lemma AssignmentReadsBack(c: string, tail: string)
    requires Proper(c) && Parts(tail)
    ensures ScanItem(Assignment, Quote(c) + (" = EXCLUDED." + (Quote(c) + tail))) == Some(([c, c], tail))
  {
    ProperReadsBack(c, tail);
    ProperReadsBack(c, " = EXCLUDED." + (Quote(c) + tail));
    StripFront(" = EXCLUDED.", Quote(c) + tail);
  }

  lemma ItemReadsBack(k: Kind, c: string, tail: string)
    requires Proper(c) && Parts(tail)
    ensures ScanItem(k, Item(k, c) + tail) == Some((Reading(k, c), tail))
  {
    match k
    case Assignment =>
      Reassociate(Quote(c), " = EXCLUDED.", Quote(c), tail);
      AssignmentReadsBack(c, tail);
    case Column =>
      ProperReadsBack(c, tail);
    case Returned =>
      ReturnedReadsBack(c, tail);
  }

  lemma ReturnedReadsBack(c: string, tail: string)
    requires Proper(c) && Parts(tail)
    ensures ScanItem(Returned, QuoteIdent(c, true) + tail) == Some(([c], tail))
  {
    if c == "*" {
      StripFront("*", tail);
    } else {
      assert (Quote(c) + tail)[0] == '"';
      ProperReadsBack(c, tail);
    }
  }

  lemma ScanListLast(k: Kind, c: string, tail: string)
    requires Proper(c) && Parts(tail) && (tail == "" || tail[0] != ',')
    ensures ScanList(k, Item(k, c) + tail) == Some(([Reading(k, c)], tail))
  {
    ItemReadsBack(k, c, tail);
  }

  lemma ScanListStep(k: Kind, c: string, others: string)
    requires Proper(c)
    ensures var rest := ScanList(k, others);
            ScanList(k, Item(k, c) + (", " + others)) ==
            if rest.None? then None else Some(([Reading(k, c)] + rest.value.0, rest.value.1))
  {
    ItemReadsBack(k, c, ", " + others);
    StripFront(", ", others);
  }

  lemma Reassociate(a: string, b: string, c: string, d: string)
    ensures (a + (b + c)) + d == a + (b + (c + d))
  {
  }

  lemma ReadingsUnfold(k: Kind, names: seq<string>)
    requires names != []
    ensures Readings(k, names) == [Reading(k, names[0])] + Readings(k, names[1..])
    ensures |names| == 1 ==> Readings(k, names) == [Reading(k, names[0])]
  {
  }

  lemma ListUnfolds(k: Kind, names: seq<string>, tail: string)
    requires |names| > 1
    ensures List(k, names) + tail == Item(k, names[0]) + (", " + (List(k, names[1..]) + tail))
    ensures Readings(k, names) == [Reading(k, names[0])] + Readings(k, names[1..])
  {
    ReadingsUnfold(k, names);
    Reassociate(Item(k, names[0]), ", ", List(k, names[1..]), tail);
  }

  /** A rendered list reads back as the list it was made from, wherever in a statement it stands. */
  lemma {:induction false} ListReadsBack(k: Kind, names: seq<string>, tail: string)
    requires names != [] && AllProper(names)
    requires Parts(tail) && (tail == "" || tail[0] != ',')
    ensures ScanList(k, List(k, names) + tail) == Some((Readings(k, names), tail))
  {
    if |names| == 1 {
      ScanListLast(k, names[0], tail);
      ReadingsUnfold(k, names);
    } else {
      ListReadsBack(k, names[1..], tail);
      ScanListStep(k, names[0], List(k, names[1..]) + tail);
      ListUnfolds(k, names, tail);
    }
  }

  // ---------------------------------------------------------------- the statement

  datatype Built = Sql(text: string) | NoColumns | NoConflictColumns

  /** The default: every column outside the conflict target, in order. */
  function DefaultUpdate(columns: seq<string>, conflict: seq<string>): seq<string> {
    if columns == [] then []
    else (if columns[0] in conflict then [] else [columns[0]]) + DefaultUpdate(columns[1..], conflict)
  }

  function ValueText(literals: map<string, string>, c: string): string {
    if c in literals then literals[c] else ":" + c
  }

  function ValueList(literals: map<string, string>, columns: seq<string>): string
    requires columns != []
  {
    if |columns| == 1 then ValueText(literals, columns[0])
    else ValueText(literals, columns[0]) + (", " + ValueList(literals, columns[1..]))
  }

  function Ending(returning: seq<string>): string {
    if returning == [] then ";" else " RETURNING " + (List(Returned, returning) + ";")
  }

  function Action(update: seq<string>, returning: seq<string>): string {
    if update == [] then "DO NOTHING" + Ending(returning)
    else "DO UPDATE SET " + (List(Assignment, update) + Ending(returning))
  }

  function BuildUpsert(table: string, columns: seq<string>, conflict: seq<string>, update: Option<seq<string>>,
                       literals: map<string, string>, returning: seq<string>): Built {
    if columns == [] then NoColumns
    else if conflict == [] then NoConflictColumns
    else
      var refreshed := if update.Some? then update.value else DefaultUpdate(columns, conflict);
      Sql("INSERT INTO " + (table + (" (" + (List(Column, columns) +
          (") VALUES (" + (ValueList(literals, columns) +
          (") ON CONFLICT (" + (List(Column, conflict) +
          (") " + Action(refreshed, returning))))))))))
  }

  /** The statement as the database understands it; `sets` are its assignments, target then source. */
  datatype Statement = Statement(columns: seq<seq<string>>, values: seq<string>, conflict: seq<seq<string>>,
                                 sets: seq<seq<string>>, returning: seq<seq<string>>)

  function ReadEnding(t: string): Option<seq<seq<string>>> {
    if t == ";" then Some([])
    else
      var more := Strip(" RETURNING ", t);
      if more.None? then None
      else
        var names := ScanList(Returned, more.value);
        if names.Some? && names.value.1 == ";" then Some(names.value.0) else None
  }

  function ReadAction(t: string): Option<(seq<seq<string>>, seq<seq<string>>)> {
    var nothing := Strip("DO NOTHING", t);
    if nothing.Some? then
      var ending := ReadEnding(nothing.value);
      if ending.None? then None else Some(([], ending.value))
    else
      var more := Strip("DO UPDATE SET ", t);
      var sets := if more.None? then None else ScanList(Assignment, more.value);
      if sets.None? then None
      else
        var ending := ReadEnding(sets.value.1);
        if ending.None? then None else Some((sets.value.0, ending.value))
  }

  /** Reads a parenthesised list of columns and what follows it. */
  function ReadColumns(t: string, then_: string): Option<(seq<seq<string>>, string)> {
    var names := ScanList(Column, t);
    var more := if names.None? then None else Strip(then_, names.value.1);
    if more.None? then None else Some((names.value.0, more.value))
  }

  /** `table` is the caller's own SQL, which the statement holds verbatim. */
  function ReadStatement(table: string, t: string): Option<Statement> {
    var start := Strip("INSERT INTO " + (table + " ("), t);
    var columns := if start.None? then None else ReadColumns(start.value, ") VALUES (");
    var values := if columns.None? then None else ScanValues(columns.value.1);
    var middle := if values.None? then None else Strip(") ON CONFLICT (", values.value.1);
    var conflict := if middle.None? then None else ReadColumns(middle.value, ") ");
    var action := if conflict.None? then None else ReadAction(conflict.value.1);
    if action.None? then None
    else Some(Statement(columns.value.0, values.value.0, conflict.value.0, action.value.0, action.value.1))
  }

  // ---------------------------------------------------------------- reading the values

  /** Where in an SQL expression one is: how deep in parentheses, and in which kind of quotes. */
  datatype Place = Place(depth: nat, quote: Option<char>)

  const TOP := Place(0, None)

  function Onward(x: Place, c: char): Place {
    match x.quote
    case Some(q) => if c == q then x.(quote := None) else x
    case None =>
      if c == '\'' || c == '"' then x.(quote := Some(c))
      else if c == '(' then x.(depth := x.depth + 1)
      else if c == ')' && x.depth > 0 then x.(depth := x.depth - 1)
      else x
  }

  /** A comma or a closing parenthesis outside everything ends an expression. */
  predicate Ends(x: Place, c: char) { x == TOP && (c == ',' || c == ')') }

  /** The text, begun at `x`, ends outside everything and not before its end. */
  predicate Completes(x: Place, e: string)
    decreases |e|
  {
    if e == "" then x == TOP else !Ends(x, e[0]) && Completes(Onward(x, e[0]), e[1..])
  }

  /** One whole expression. */
  predicate Contained(e: string) { e != "" && Completes(TOP, e) }

  function ScanExpr(x: Place, t: string): (r: Option<Scanned>)
    ensures r.Some? ==> |r.value.name| + |r.value.rest| == |t|
    decreases |t|
  {
    if t == "" then None
    else if Ends(x, t[0]) then Some(Scanned("", t))
    else Prepend(t[0], ScanExpr(Onward(x, t[0]), t[1..]))
  }

  function ScanValues(t: string): Option<(seq<string>, string)>
    decreases |t|
  {
    var first := ScanExpr(TOP, t);
    if first.None? || first.value.name == "" then None
    else
      var more := Strip(", ", first.value.rest);
      if more.None? then Some(([first.value.name], first.value.rest))
      else
        var others := ScanValues(more.value);
        if others.None? then None else Some(([first.value.name] + others.value.0, others.value.1))
  }

  function ValueTexts(literals: map<string, string>, columns: seq<string>): seq<string> {
    seq(|columns|, i requires 0 <= i < |columns| => ValueText(literals, columns[i]))
  }

  predicate AllContained(es: seq<string>) { forall i :: 0 <= i < |es| ==> Contained(es[i]) }

  lemma {:induction false} ExprReadsBack(x: Place, e: string, tail: string)
    requires Completes(x, e) && tail != "" && (tail[0] == ',' || tail[0] == ')')
    ensures ScanExpr(x, e + tail) == Some(Scanned(e, tail))
    decreases |e|
  {
    if e == "" {
      assert e + tail == tail;
    } else {
      ExprReadsBack(Onward(x, e[0]), e[1..], tail);
      HeadAndTail(e, tail);
    }
  }

  lemma HeadAndTail(e: string, tail: string)
    requires e != ""
    ensures (e + tail)[0] == e[0] && (e + tail)[1..] == e[1..] + tail && [e[0]] + e[1..] == e
  {
  }

  lemma ScanValuesLast(e: string, tail: string)
    requires Contained(e) && tail != "" && tail[0] == ')'
    ensures ScanValues(e + tail) == Some(([e], tail))
  {
    ExprReadsBack(TOP, e, tail);
  }

  lemma ScanValuesStep(e: string, others: string)
    requires Contained(e)
    ensures var rest := ScanValues(others);
            ScanValues(e + (", " + others)) == if rest.None? then None else Some(([e] + rest.value.0, rest.value.1))
  {
    ExprReadsBack(TOP, e, ", " + others);
    StripFront(", ", others);
  }

  lemma ValueListUnfolds(literals: map<string, string>, columns: seq<string>, tail: string)
    requires |columns| > 1
    ensures ValueList(literals, columns) + tail ==
            ValueText(literals, columns[0]) + (", " + (ValueList(literals, columns[1..]) + tail))
  {
    Reassociate(ValueText(literals, columns[0]), ", ", ValueList(literals, columns[1..]), tail);
  }

  lemma ValueTextsUnfold(literals: map<string, string>, columns: seq<string>)
    requires columns != []
    ensures ValueTexts(literals, columns) == [ValueText(literals, columns[0])] + ValueTexts(literals, columns[1..])
    ensures |columns| == 1 ==> ValueTexts(literals, columns) == [ValueText(literals, columns[0])]
  {
  }

  /** The VALUES clause reads back as the expressions of the columns, in the order of the columns. */
  lemma {:induction false} ValuesReadBack(literals: map<string, string>, columns: seq<string>, tail: string)
    requires columns != [] && AllContained(ValueTexts(literals, columns)) && tail != "" && tail[0] == ')'
    ensures ScanValues(ValueList(literals, columns) + tail) == Some((ValueTexts(literals, columns), tail))
  {
    ValueTextsUnfold(literals, columns);
    var texts := ValueTexts(literals, columns);
    assert Contained(texts[0]);
    if |columns| == 1 {
      ScanValuesLast(texts[0], tail);
    } else {
      assert texts[1..] == ValueTexts(literals, columns[1..]);
      assert forall i :: 0 <= i < |columns| - 1 ==> ValueTexts(literals, columns[1..])[i] == texts[i + 1];
      ValuesReadBack(literals, columns[1..], tail);
      ScanValuesStep(texts[0], ValueList(literals, columns[1..]) + tail);
      ValueListUnfolds(literals, columns, tail);
    }
  }

  /** Letters, digits and underscores: what a bind parameter's name is made of. */
  predicate IsWord(c: string) {
    c != "" && forall i :: 0 <= i < |c| ==> 'a' <= c[i] <= 'z' || 'A' <= c[i] <= 'Z' || '0' <= c[i] <= '9' || c[i] == '_'
  }

  /** The parameter an expression binds, if that is all it does. */
  function BindName(e: string): Option<string> {
    if e != "" && e[0] == ':' && IsWord(e[1..]) then Some(e[1..]) else None
  }

  /** A column without a literal binds the parameter of its own name exactly when that name is a word. */
  lemma BindsOwnNameIff(literals: map<string, string>, c: string)
    requires c !in literals
    ensures BindName(ValueText(literals, c)) == Some(c) <==> IsWord(c)
    ensures IsWord(c) ==> Contained(ValueText(literals, c))
  {
    assert (":" + c)[1..] == c;
    if IsWord(c) {
      WordCompletes(c);
    }
  }

  lemma {:induction false} WordCompletes(c: string)
    requires forall i :: 0 <= i < |c| ==> 'a' <= c[i] <= 'z' || 'A' <= c[i] <= 'Z' || '0' <= c[i] <= '9' || c[i] == '_'
    ensures Completes(TOP, c)
  {
    if c != "" {
      WordCompletes(c[1..]);
    }
  }

  // ---------------------------------------------------------------- reading it all

  lemma EndingReadsBack(returning: seq<string>)
    requires AllProper(returning)
    ensures ReadEnding(Ending(returning)) == Some(Readings(Returned, returning))
  {
    if returning == [] {
      assert Readings(Returned, returning) == [];
    } else {
      StripFront(" RETURNING ", List(Returned, returning) + ";");
      ListReadsBack(Returned, returning, ";");
      assert Ending(returning)[0] == ' ';
    }
  }

  lemma ActionReadsBack(update: seq<string>, returning: seq<string>)
    requires AllProper(update) && AllProper(returning)
    ensures ReadAction(Action(update, returning)) == Some((Readings(Assignment, update), Readings(Returned, returning)))
  {
    var ending := Ending(returning);
    EndingReadsBack(returning);
    if update == [] {
      StripFront("DO NOTHING", ending);
      assert Readings(Assignment, update) == [];
    } else {
      var t := Action(update, returning);
      assert t[3] == 'U' && "DO NOTHING"[3] == 'N';
      StripFront("DO UPDATE SET ", List(Assignment, update) + ending);
      assert ending[0] == ';' || ending[0] == ' ';
      ListReadsBack(Assignment, update, ending);
    }
  }

  lemma ColumnsReadBack(columns: seq<string>, then_: string, tail: string)
    requires columns != [] && AllProper(columns) && then_ != "" && then_[0] == ')'
    ensures ReadColumns(List(Column, columns) + (then_ + tail), then_) == Some((Readings(Column, columns), tail))
  {
    ListReadsBack(Column, columns, then_ + tail);
    StripFront(then_, tail);
  }

  lemma {:induction false} DefaultUpdateProper(columns: seq<string>, conflict: seq<string>)
    requires AllProper(columns)
    ensures AllProper(DefaultUpdate(columns, conflict))
    ensures forall c :: c in DefaultUpdate(columns, conflict) <==> c in columns && c !in conflict
  {
    if columns != [] {
      DefaultUpdateProper(columns[1..], conflict);
    }
  }

  function Refreshed(columns: seq<string>, conflict: seq<string>, update: Option<seq<string>>): seq<string> {
    if update.Some? then update.value else DefaultUpdate(columns, conflict)
  }

  /**
   The rendered text, read as SQL, names exactly the columns, their values, the conflict
   target, the assignments and the returned columns it was built from, the i-th value for the
   i-th column and each column refreshed from itself.
   */
  lemma UpsertReadsBack(table: string, columns: seq<string>, conflict: seq<string>, update: Option<seq<string>>,
                        literals: map<string, string>, returning: seq<string>)
    requires AllProper(columns) && AllProper(conflict) && AllProper(returning)
    requires update.Some? ==> AllProper(update.value)
    requires AllContained(ValueTexts(literals, columns))
    ensures columns == [] ==> BuildUpsert(table, columns, conflict, update, literals, returning) == NoColumns
    ensures columns != [] && conflict == [] ==>
              BuildUpsert(table, columns, conflict, update, literals, returning) == NoConflictColumns
    ensures columns != [] && conflict != [] ==>
              var built := BuildUpsert(table, columns, conflict, update, literals, returning);
              && built.Sql?
              && ReadStatement(table, built.text) ==
                 Some(Statement(Readings(Column, columns), ValueTexts(literals, columns), Readings(Column, conflict),
                                Readings(Assignment, Refreshed(columns, conflict, update)), Readings(Returned, returning)))
  {
    if columns != [] && conflict != [] {
      var refreshed := Refreshed(columns, conflict, update);
      DefaultUpdateProper(columns, conflict);
      ActionReadsBack(refreshed, returning);
      var action := Action(refreshed, returning);
      var target := List(Column, conflict) + (") " + action);
      ColumnsReadBack(conflict, ") ", action);
      StripFront(") ON CONFLICT (", target);
      ValuesReadBack(literals, columns, ") ON CONFLICT (" + target);
      var middle := ValueList(literals, columns) + (") ON CONFLICT (" + target);
      ColumnsReadBack(columns, ") VALUES (", middle);
      var start := List(Column, columns) + (") VALUES (" + middle);
      StripFront("INSERT INTO " + (table + " ("), start);
      Reopen(table, start);
    }
  }

  lemma Reopen(table: string, rest: string)
    ensures "INSERT INTO " + (table + (" (" + rest)) == ("INSERT INTO " + (table + " (")) + rest
  {
    assert table + (" (" + rest) == (table + " (") + rest;
  }
}
