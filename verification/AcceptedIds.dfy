/** `_resolve_accepted_ids`: the logical id of each row an upsert returned. */
module AcceptedIds {
  import opened Options
  import opened JsonValues

  /** A row of an upsert result, or an id already reduced to text by the sub-batching path. */
  datatype Row = IdText(text: string) | Obj(id: Json, properties: Json)

  /** Python truth. */
  predicate Truthy(j: Json) {
    match j
    case JNull => false
    case JBool(b) => b
    case JInt(n) => n != 0
    case JFloat(x) => x != 0.0
    case JStr(s) => s != ""
    case JList(items) => items != []
    case JObj(fields) => fields != map[]
  }

  /** `a or b`. */
  function Or(a: Json, b: Json): Json { if Truthy(a) then a else b }

  function IdValue(id: Json, properties: Json): Json {
    var props := if properties.JObj? then properties.fields else map[];
    var fid := Or(id, Or(Get(props, "external_id"), Get(props, "geoid")));
    if Truthy(fid) then fid
    else
      var attrs := Get(props, "attributes");
      var fid' := if attrs.JObj? then Or(Get(attrs.fields, "id"), Get(attrs.fields, "external_id")) else fid;
      if !Truthy(fid') && Truthy(Get(props, "geoid")) then Get(props, "geoid") else fid'
  }

  /** The id's text, or nothing where the code raises. */
  function ResolveRow(repr: Json -> string, row: Row): Option<string> {
    match row
    case IdText(t) => Some(t)
    case Obj(id, properties) =>
      var fid := IdValue(id, properties);
      if fid.JNull? || PyStr(repr, fid) == "" then None else Some(PyStr(repr, fid))
  }

  /** The values Python takes for false, one of each kind. */
  lemma FalsyValues(j: Json)
    ensures !Truthy(j) <==>
            j == JNull || j == JBool(false) || j == JInt(0) || j == JFloat(0.0) || j == JStr("") || j == JList([]) || j == JObj(map[])
  {
  }

  function FirstTruthy(js: seq<Json>): Json
    requires js != []
  {
    if |js| == 1 || Truthy(js[0]) then js[0] else FirstTruthy(js[1..])
  }

  /** Where an id is looked for, in order. */
  function IdSources(id: Json, props: map<string, Json>): seq<Json> {
    [id, Get(props, "external_id"), Get(props, "geoid")] +
    if Get(props, "attributes").JObj?
    then [Get(Get(props, "attributes").fields, "id"), Get(Get(props, "attributes").fields, "external_id")] else []
  }

  /**
   The id is the first true value among the row's id, the external id, the geoid and, where
   there are attributes, their id and external id; failing all, the last one looked at.
   */
  lemma IdIsFirstTruthy(id: Json, props: map<string, Json>)
    ensures IdValue(id, JObj(props)) == FirstTruthy(IdSources(id, props))
  {
    var a := Get(props, "attributes");
    var geoid := Get(props, "geoid");
    FirstOfThree(id, Get(props, "external_id"), geoid);
    if a.JObj? {
      FirstOfFive(id, Get(props, "external_id"), geoid, Get(a.fields, "id"), Get(a.fields, "external_id"));
    }
  }

  lemma FirstOfThree(x: Json, y: Json, z: Json)
    ensures FirstTruthy([x, y, z]) == Or(x, Or(y, z))
    ensures [x, y, z] + [] == [x, y, z]
  {
    assert [x, y, z][1..] == [y, z] && [y, z][1..] == [z];
    assert FirstTruthy([z]) == z && FirstTruthy([y, z]) == Or(y, z);
  }

  lemma FirstOfFive(x: Json, y: Json, z: Json, u: Json, v: Json)
    ensures FirstTruthy([x, y, z] + [u, v]) == Or(x, Or(y, Or(z, Or(u, v))))
  {
    var all := [x, y, z] + [u, v];
    assert all[1..] == [y, z, u, v] && [y, z, u, v][1..] == [z, u, v];
    FirstOfThree(z, u, v);
  }

  /** A row without properties, or with something else in their place, has only its own id. */
  lemma IdWithoutProperties(id: Json, other: Json)
    requires !other.JObj?
    ensures IdValue(id, other) == if Truthy(id) then id else JNull
  {
  }

  /** An id already reduced to text is taken as it is; any other is its own text, unless there is none. */
  lemma ResolvedText(repr: Json -> string, text: string, id: Json, props: Json)
    ensures ResolveRow(repr, IdText(text)) == Some(text)
    ensures ResolveRow(repr, Obj(id, props)).None? <==> IdValue(id, props) == JNull || PyStr(repr, IdValue(id, props)) == ""
    ensures ResolveRow(repr, Obj(id, props)).Some? ==> ResolveRow(repr, Obj(id, props)).value == PyStr(repr, IdValue(id, props))
  {
  }

  function ResolveRows(repr: Json -> string, rows: seq<Row>): Option<seq<string>> {
    if rows == [] then Some([])
    else
      var before := ResolveRows(repr, rows[..|rows| - 1]);
      var last := ResolveRow(repr, rows[|rows| - 1]);
      if before.Some? && last.Some? then Some(before.value + [last.value]) else None
  }

  /** One text per row, in order, or an error as soon as a row has none. */
  method ResolveAcceptedIds(repr: Json -> string, rows: seq<Row>) returns (ids: Option<seq<string>>)
    ensures ids == ResolveRows(repr, rows)
    ensures ids.Some? <==> forall i :: 0 <= i < |rows| ==> ResolveRow(repr, rows[i]).Some?
    ensures ids.Some? ==> |ids.value| == |rows|
    ensures ids.Some? ==> forall i :: 0 <= i < |rows| ==> ResolveRow(repr, rows[i]) == Some(ids.value[i])
  {
    var out: seq<string> := [];
    var i := 0;
    while i < |rows|
      invariant 0 <= i <= |rows| && |out| == i
      invariant ResolveRows(repr, rows[..i]) == Some(out)
      invariant forall k :: 0 <= k < i ==> ResolveRow(repr, rows[k]) == Some(out[k])
    {
      var id := ResolveRow(repr, rows[i]);
      assert rows[..i + 1][..i] == rows[..i];
      if id.None? {
        UnresolvedStays(repr, rows, i + 1);
        return None;
      }
      out := out + [id.value];
      i := i + 1;
    }
    assert rows[..i] == rows;
    return Some(out);
  }

  lemma {:induction false} UnresolvedStays(repr: Json -> string, rows: seq<Row>, k: nat)
    requires k <= |rows| && ResolveRows(repr, rows[..k]).None?
    ensures ResolveRows(repr, rows).None?
  {
    if k < |rows| {
      assert rows[..|rows| - 1][..k] == rows[..k];
      UnresolvedStays(repr, rows[..|rows| - 1], k);
    } else {
      assert rows[..k] == rows;
    }
  }

  /** Resolving in pieces and gluing is resolving the whole, errors included. */
  lemma {:induction false} ResolveDistributes(repr: Json -> string, a: seq<Row>, b: seq<Row>)
    ensures ResolveRows(repr, a + b) ==
            if ResolveRows(repr, a).Some? && ResolveRows(repr, b).Some?
            then Some(ResolveRows(repr, a).value + ResolveRows(repr, b).value) else None
    decreases |b|
  {
    if b == [] {
      assert a + b == a;
      if ResolveRows(repr, a).Some? {
        assert ResolveRows(repr, a).value + [] == ResolveRows(repr, a).value;
      }
    } else {
      assert (a + b)[..|a + b| - 1] == a + b[..|b| - 1];
      ResolveDistributes(repr, a, b[..|b| - 1]);
      if ResolveRows(repr, a).Some? && ResolveRows(repr, b).Some? {
        assert ResolveRows(repr, a).value + ResolveRows(repr, b[..|b| - 1]).value + [ResolveRow(repr, b[|b| - 1]).value]
            == ResolveRows(repr, a).value + ResolveRows(repr, b).value;
      }
    }
  }

  function AsRows(ids: seq<string>): (rows: seq<Row>)
    ensures |rows| == |ids| && forall i :: 0 <= i < |ids| ==> rows[i] == IdText(ids[i])
  {
    seq(|ids|, i requires 0 <= i < |ids| => IdText(ids[i]))
  }

  /** Ids already resolved pass through unchanged. */
  lemma {:induction false} ResolveIsIdempotent(repr: Json -> string, ids: seq<string>)
    ensures ResolveRows(repr, AsRows(ids)) == Some(ids)
  {
    if ids != [] {
      ResolveIsIdempotent(repr, ids[..|ids| - 1]);
      assert AsRows(ids)[..|AsRows(ids)| - 1] == AsRows(ids[..|ids| - 1]);
      assert ids == ids[..|ids| - 1] + [ids[|ids| - 1]];
    }
  }
}
