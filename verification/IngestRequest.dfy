/**
 `_ingest_items` as a whole: the choice between one upsert and the split path, what the
 two report, and the response a client gets.
 */
module IngestRequest {
  import opened Options
  import opened JsonValues
  import opened Rejections
  import opened AcceptedIds
  import opened BulkIngest
  import BulkOffload

  datatype Payload<T> = Single(item: T) | Many(items: seq<T>) {
    function Items(): seq<T> { match this case Single(x) => [x] case Many(xs) => xs }
  }

  datatype IngestResult =
    | Reported(accepted: seq<Row>, rejections: seq<Rejection>, offload: Option<BulkOffload.Outcome>)
    | Failed(error: Error)

  /** The last check: a request with nothing accepted and nothing refused is a server error, deferred or not. */
  function Conclude(accepted: seq<Row>, rejections: seq<Rejection>, offload: Option<BulkOffload.Outcome>): IngestResult {
    if accepted == [] && rejections == [] then Failed(NothingCreated500) else Reported(accepted, rejections, offload)
  }

  /** One upsert of everything; rows are kept whole and refusals are not sampled. */
  function SingleResult(r: UpsertResult): IngestResult {
    match r
    case ConflictRaised => Failed(Conflict409)
    case ValueErrorRaised => Failed(BadRequest400)
    case OtherRaised => Failed(Unexpected)
    case _ => Conclude(RowsOf(r), RefusedOf(r), None)
  }

  predicate MustSplit<T>(l: Limits, env: Env<T>, payload: Payload<T>) {
    payload.Many? && (|payload.items| > l.rowCap || Bytes(env, payload.items) > l.ByteBudget())
  }

  /** The size estimate stops at the first item over the budget; the answer is that of the whole sum. */
  method NeedsSplit<T>(l: Limits, env: Env<T>, payload: Payload<T>) returns (split: bool)
    ensures split <==> MustSplit(l, env, payload)
    ensures split <==> payload.Many? && (|payload.items| > l.rowCap || Bytes(env, payload.items) > l.ByteBudget())
  {
    if payload.Single? {
      return false;
    }
    var items := payload.items;
    if |items| > l.rowCap {
      return true;
    }
    var total, i := 0, 0;
    while i < |items|
      invariant 0 <= i <= |items| && total == Bytes(env, items[..i]) <= l.ByteBudget()
    {
      assert items[..i + 1][..i] == items[..i];
      total := total + env.bytes(items[i]);
      i := i + 1;
      if total > l.ByteBudget() {
        BytesConcat(env, items[..i], items[i..]);
        assert items[..i] + items[i..] == items;
        return true;
      }
    }
    assert items[..i] == items;
    return false;
  }

  /** The whole request.  For a split request `t` and `rest` are the split path's own account of it. */
  method IngestItems<T>(l: Limits, env: Env<T>, payload: Payload<T>)
      returns (result: IngestResult, t: Tally<T>, rest: seq<T>)
    ensures payload.Many? && |payload.items| > l.maxBulk ==> result == Failed(TooManyItems)
    ensures !(payload.Many? && |payload.items| > l.maxBulk) && !MustSplit(l, env, payload) ==>
              result == SingleResult(env.upsert(0, payload.Items()))
    ensures !(payload.Many? && |payload.items| > l.maxBulk) && MustSplit(l, env, payload) ==>
              exists err, offload :: Accounts(l, env, payload.items, err, t, offload, rest) &&
                result == if err.Some? then Failed(err.value) else Conclude(AsRows(t.ids), t.rejections, offload)
  {
    t, rest := Tally([], [], [], []), [];
    if payload.Many? && |payload.items| > l.maxBulk {
      return Failed(TooManyItems), t, rest;
    }
    var split := NeedsSplit(l, env, payload);
    if split {
      var err, offload;
      err, t, offload, rest := SplitIngest(l, env, payload.items);
      result := if err.Some? then Failed(err.value) else Conclude(AsRows(t.ids), t.rejections, offload);
    } else {
      result := SingleResult(env.upsert(0, payload.Items()));
    }
  }

  // ---------------------------------------------------------------- splitting changes nothing

  function FlatMap<T, U>(f: T -> seq<U>, s: seq<T>): seq<U> {
    if s == [] then [] else FlatMap(f, s[..|s| - 1]) + f(s[|s| - 1])
  }

  lemma {:induction false} FlatMapConcat<T, U>(f: T -> seq<U>, a: seq<T>, b: seq<T>)
    ensures FlatMap(f, a + b) == FlatMap(f, a) + FlatMap(f, b)
    decreases |b|
  {
    if b == [] {
      assert a + b == a;
    } else {
      assert (a + b)[..|a + b| - 1] == a + b[..|b| - 1];
      FlatMapConcat(f, a, b[..|b| - 1]);
    }
  }

  /** An item store that treats each item on its own, whatever batch it comes in. */
  ghost predicate Itemwise<T(!new)>(env: Env<T>, rows: T -> seq<Row>, refused: T -> seq<Rejection>) {
    forall k: nat, b: seq<T> :: env.upsert(k, b) == Wrote(Listed(FlatMap(rows, b)), FlatMap(refused, b))
  }

  /**
   With such a store, any way of cutting the list reports the same ids in the same order as
   one upsert of the whole list, and refuses the same items.
   */
  lemma {:induction false} SplitReportsSame<T(!new)>(env: Env<T>, rows: T -> seq<Row>, refused: T -> seq<Rejection>, flushed: seq<seq<T>>)
    requires Itemwise(env, rows, refused)
    requires forall k :: 0 <= k < |flushed| ==> WroteWell(env, k, flushed[k])
    ensures AllRefused(env, flushed) == FlatMap(refused, Concat(flushed))
    ensures ResolveRows(env.repr, FlatMap(rows, Concat(flushed))) == Some(IdsOf(env, flushed))
  {
    if flushed != [] {
      var before, b := flushed[..|flushed| - 1], flushed[|flushed| - 1];
      assert flushed == before + [b];
      assert WroteWell(env, |before|, b);
      SplitReportsSame(env, rows, refused, before);
      SplitStep(env, rows, refused, before, b);
    }
  }

  lemma SplitStep<T(!new)>(env: Env<T>, rows: T -> seq<Row>, refused: T -> seq<Rejection>, before: seq<seq<T>>, b: seq<T>)
    requires Itemwise(env, rows, refused) && WroteWell(env, |before|, b)
    requires AllRefused(env, before) == FlatMap(refused, Concat(before))
    requires ResolveRows(env.repr, FlatMap(rows, Concat(before))) == Some(IdsOf(env, before))
    ensures AllRefused(env, before + [b]) == FlatMap(refused, Concat(before + [b]))
    ensures ResolveRows(env.repr, FlatMap(rows, Concat(before + [b]))) == Some(IdsOf(env, before + [b]))
  {
    ConcatSnoc(before, b);
    ReportsSnoc(env, before, b);
    FlatMapConcat(rows, Concat(before), b);
    FlatMapConcat(refused, Concat(before), b);
    assert env.upsert(|before|, b) == Wrote(Listed(FlatMap(rows, b)), FlatMap(refused, b));
    ResolveDistributes(env.repr, FlatMap(rows, Concat(before)), FlatMap(rows, b));
  }

  /**
   So for a request that is split and not deferred, the ids reported are those the single
   call would have reported, and the refusals its last samples.
   */
  lemma SplitEqualsSingle<T(!new)>(l: Limits, env: Env<T>, items: seq<T>, rows: T -> seq<Row>, refused: T -> seq<Rejection>,
                                   t: Tally<T>, offload: Option<BulkOffload.Outcome>)
    requires Itemwise(env, rows, refused) && Accounts(l, env, items, None, t, offload, [])
    ensures ResolveRows(env.repr, RowsOf(env.upsert(0, items))) == Some(t.ids)
    ensures t.rejections == LastN(RefusedOf(env.upsert(0, items)), 100)
    ensures ResolveRows(env.repr, AsRows(t.ids)) == Some(t.ids)
  {
    SplitReportsSame(env, rows, refused, t.flushed);
    assert Concat(t.flushed) == items;
    assert env.upsert(0, items) == Wrote(Listed(FlatMap(rows, items)), FlatMap(refused, items));
    ResolveIsIdempotent(env.repr, t.ids);
  }

  // ---------------------------------------------------------------- nothing unaccounted for

  /** Every item is either stored as one row or refused once. */
  ghost predicate OneEach<T(!new)>(rows: T -> seq<Row>, refused: T -> seq<Rejection>) {
    forall x :: |rows(x)| + |refused(x)| == 1
  }

  lemma {:induction false} OneEachCounts<T(!new)>(rows: T -> seq<Row>, refused: T -> seq<Rejection>, s: seq<T>)
    requires OneEach(rows, refused)
    ensures |FlatMap(rows, s)| + |FlatMap(refused, s)| == |s|
  {
    if s != [] {
      OneEachCounts(rows, refused, s[..|s| - 1]);
    }
  }

  lemma {:induction false} ResolveKeepsCount(repr: Json -> string, rows: seq<Row>)
    requires ResolveRows(repr, rows).Some?
    ensures |ResolveRows(repr, rows).value| == |rows|
  {
    if rows != [] {
      ResolveKeepsCount(repr, rows[..|rows| - 1]);
    }
  }

  /** What an unsplit request makes of each of the store's answers. */
  lemma SingleAnswers(r: UpsertResult)
    ensures r == ConflictRaised ==> SingleResult(r) == Failed(Conflict409)
    ensures r == ValueErrorRaised ==> SingleResult(r) == Failed(BadRequest400)
    ensures r == OtherRaised ==> SingleResult(r) == Failed(Unexpected)
    ensures r.BatchRefused? ==> SingleResult(r) == Reported([], [r.cause] + r.refused, None)
    ensures r.Wrote? && r.created.One? ==> SingleResult(r) == Reported([r.created.row], r.refused, None)
    ensures r.Wrote? && r.created.Listed? && (r.created.rows != [] || r.refused != []) ==>
              SingleResult(r) == Reported(r.created.rows, r.refused, None)
    ensures r.Wrote? && r.created.Nothing? && r.refused != [] ==> SingleResult(r) == Reported([], r.refused, None)
    ensures SingleResult(r) == Failed(NothingCreated500) <==>
            r.Wrote? && r.refused == [] && (r.created.Nothing? || (r.created.Listed? && r.created.rows == []))
  {
  }

  /** An unsplit request answers for every item: stored or refused, and together the whole batch. */
  lemma SingleItemsAddUp<T(!new)>(env: Env<T>, items: seq<T>, rows: T -> seq<Row>, refused: T -> seq<Rejection>)
    requires Itemwise(env, rows, refused) && OneEach(rows, refused) && items != []
    ensures var one := SingleResult(env.upsert(0, items));
            && one == Reported(FlatMap(rows, items), FlatMap(refused, items), None)
            && |one.accepted| + |one.rejections| == |items|
  {
    assert env.upsert(0, items) == Wrote(Listed(FlatMap(rows, items)), FlatMap(refused, items));
    OneEachCounts(rows, refused, items);
    SingleAnswers(env.upsert(0, items));
  }

  /**
   The same batch under limits that split it and limits that do not: both end in a server
   error or neither does; and if neither, they name the same ids in the same order, and the
   split one's refusals are the last samples of the other's.
   */
  lemma SplitConcludesAsSingle<T(!new)>(l: Limits, env: Env<T>, items: seq<T>, rows: T -> seq<Row>, refused: T -> seq<Rejection>,
                                        t: Tally<T>, offload: Option<BulkOffload.Outcome>)
    requires Itemwise(env, rows, refused) && Accounts(l, env, items, None, t, offload, [])
    ensures var one, many := SingleResult(env.upsert(0, items)), Conclude(AsRows(t.ids), t.rejections, offload);
            && (one == Failed(NothingCreated500) <==> many == Failed(NothingCreated500))
            && (one != Failed(NothingCreated500) ==>
                  && one.Reported? && many.Reported? && one.offload.None? && many.offload.None?
                  && ResolveRows(env.repr, many.accepted) == ResolveRows(env.repr, one.accepted) == Some(t.ids)
                  && many.rejections == LastN(one.rejections, MAX_FAILURE_SAMPLES))
  {
    SplitEqualsSingle(l, env, items, rows, refused, t, offload);
    var r := env.upsert(0, items);
    assert r == Wrote(Listed(FlatMap(rows, items)), FlatMap(refused, items));
    ResolveKeepsCount(env.repr, RowsOf(r));
    SingleAnswers(r);
  }

  /** What the client is told. */
  datatype Response = Response(status: nat, accepted: seq<string>, deferred: Option<nat>, rejections: seq<Rejection>,
                               total: Option<nat>, location: Option<string>)

  function BuildOffload(ids: seq<string>, rejections: seq<Rejection>, total: nat, o: BulkOffload.Outcome): Response {
    Response(202, ids, Some(o.count), rejections, Some(total), o.monitorUrl)
  }

  /** The builders' choice: any rejection makes it a report, a deferred remainder makes either a 202. */
  function Respond(ids: seq<string>, rejections: seq<Rejection>, batchSize: nat, offload: Option<BulkOffload.Outcome>): Response {
    if rejections != [] then
      if offload.Some? then BuildOffload(ids, rejections, batchSize, offload.value)
      else Response(207, ids, None, rejections, Some(batchSize), None)
    else
      if offload.Some? then BuildOffload(ids, [], |ids| + offload.value.count, offload.value)
      else Response(201, ids, None, [], None, None)
  }

  /** Without a deferred remainder: created when nothing was refused, else a report of the two lists and the batch size. */
  lemma ResponseWithoutOffload(ids: seq<string>, rejections: seq<Rejection>, batchSize: nat)
    ensures var answer := Respond(ids, rejections, batchSize, None);
            && answer.accepted == ids && answer.rejections == rejections && answer.deferred.None? && answer.location.None?
            && (answer.status == 201 <==> rejections == []) && (answer.status == 207 <==> rejections != [])
            && (rejections != [] ==> answer.total == Some(batchSize))
  {
  }

  /** Every submitted item is accounted for: stored, refused, or in the remainder. */
  lemma ItemsAddUp<T(!new)>(l: Limits, env: Env<T>, items: seq<T>, rows: T -> seq<Row>, refused: T -> seq<Rejection>,
                            t: Tally<T>, offload: Option<BulkOffload.Outcome>, rest: seq<T>)
    requires Itemwise(env, rows, refused) && OneEach(rows, refused)
    requires Accounts(l, env, items, None, t, offload, rest)
    ensures |t.ids| + |AllRefused(env, t.flushed)| + |rest| == |items|
  {
    var written := Concat(t.flushed);
    SplitReportsSame(env, rows, refused, t.flushed);
    ResolveKeepsCount(env.repr, FlatMap(rows, written));
    OneEachCounts(rows, refused, written);
  }

  lemma ResponseAddsUp(ids: seq<string>, refused: seq<Rejection>, batchSize: nat, o: BulkOffload.Outcome)
    requires |ids| + |refused| + o.count == batchSize
    ensures var answer := Respond(ids, LastN(refused, MAX_FAILURE_SAMPLES), batchSize, Some(o));
            && answer.status == 202
            && answer.total == Some(batchSize)
            && answer.deferred == Some(o.count)
            && answer.accepted == ids && answer.rejections == LastN(refused, MAX_FAILURE_SAMPLES)
            && answer.location == o.monitorUrl
            && (|refused| <= MAX_FAILURE_SAMPLES ==> |answer.accepted| + |answer.rejections| + o.count == batchSize)
  {
  }

  /**
   So the response adds up: its total is the size of the batch, which the two builders
   compute differently, and where the samples are not truncated, what it lists as stored,
   refused and deferred is the whole batch.
   */
  lemma EveryItemAnswered<T(!new)>(l: Limits, env: Env<T>, items: seq<T>, rows: T -> seq<Row>, refused: T -> seq<Rejection>,
                                   t: Tally<T>, o: BulkOffload.Outcome, rest: seq<T>)
    requires Itemwise(env, rows, refused) && OneEach(rows, refused)
    requires Accounts(l, env, items, None, t, Some(o), rest) && o.count == |rest|
    ensures var answer := Respond(t.ids, t.rejections, |items|, Some(o));
            && answer.status == 202
            && answer.total == Some(|items|)
            && answer.deferred == Some(|rest|)
            && (|AllRefused(env, t.flushed)| <= 100 ==>
                  |answer.accepted| + |answer.rejections| + |rest| == |items|)
  {
    ItemsAddUp(l, env, items, rows, refused, t, Some(o), rest);
    ResponseAddsUp(t.ids, AllRefused(env, t.flushed), |items|, o);
  }

  // ---------------------------------------------------------------- the server error

  /** The k-th flush stored and refused nothing. */
  predicate Quiet<T>(env: Env<T>, k: nat, b: seq<T>) {
    RowsOf(env.upsert(k, b)) == [] && RefusedOf(env.upsert(k, b)) == []
  }

  ghost predicate Silent<T>(env: Env<T>, flushed: seq<seq<T>>) {
    forall k :: 0 <= k < |flushed| ==> Quiet(env, k, flushed[k])
  }

  lemma SilentStep<T>(env: Env<T>, before: seq<seq<T>>, b: seq<T>)
    ensures Silent(env, before + [b]) <==> Silent(env, before) && Quiet(env, |before|, b)
  {
    var all := before + [b];
    assert forall k :: 0 <= k < |before| ==> all[k] == before[k];
    assert all[|before|] == b;
  }

  lemma ReportStep<T>(env: Env<T>, before: seq<seq<T>>, b: seq<T>)
    requires WroteWell(env, |before|, b)
    ensures IdsOf(env, before + [b]) == [] && AllRefused(env, before + [b]) == [] <==>
            IdsOf(env, before) == [] && AllRefused(env, before) == [] && Quiet(env, |before|, b)
  {
    assert (before + [b])[..|before|] == before;
    ResolveKeepsCount(env.repr, RowsOf(env.upsert(|before|, b)));
  }

  /** Nothing is reported exactly when nothing was stored or refused. */
  lemma {:induction false} SilentIff<T>(env: Env<T>, flushed: seq<seq<T>>)
    requires forall k :: 0 <= k < |flushed| ==> WroteWell(env, k, flushed[k])
    ensures IdsOf(env, flushed) == [] && AllRefused(env, flushed) == [] <==> Silent(env, flushed)
  {
    if flushed != [] {
      var before, b := flushed[..|flushed| - 1], flushed[|flushed| - 1];
      assert flushed == before + [b];
      SilentIff(env, before);
      SilentStep(env, before, b);
      ReportStep(env, before, b);
    }
  }

  /** The offload that was to take the remainder failed, and named at least one item. */
  predicate OffloadRefuses<T>(env: Env<T>, rest: seq<T>) {
    rest != [] && env.offload(rest).IsFailure() && env.offload(rest).rejections != []
  }

  /**
   A split request without an upsert error ends in a server error exactly when its flushes
   stored and refused nothing and no failed offload refused anything either.
   */
  lemma EndsInErrorIff<T>(l: Limits, env: Env<T>, items: seq<T>, t: Tally<T>, offload: Option<BulkOffload.Outcome>, rest: seq<T>)
    requires Accounts(l, env, items, None, t, offload, rest)
    ensures Conclude(AsRows(t.ids), t.rejections, offload) == Failed(NothingCreated500) <==>
            Silent(env, t.flushed) && !OffloadRefuses(env, rest)
  {
    SilentIff(env, t.flushed);
    SamplesEmptyIff(env, t.flushed, rest);
  }

  lemma SamplesEmptyIff<T>(env: Env<T>, flushed: seq<seq<T>>, rest: seq<T>)
    ensures Samples(env, flushed, rest) == [] <==> AllRefused(env, flushed) == [] && !OffloadRefuses(env, rest)
  {
  }

  /**
   So a request whose remainder is with a job ends in a server error exactly when its
   flushes stored and refused nothing; the job goes on all the same.
   */
  lemma DeferredButFailedIff<T>(l: Limits, env: Env<T>, items: seq<T>, t: Tally<T>, o: BulkOffload.Outcome, rest: seq<T>)
    requires Accounts(l, env, items, None, t, Some(o), rest)
    ensures rest != [] && o == env.offload(rest) && o.IsSuccess()
    ensures Conclude(AsRows(t.ids), t.rejections, Some(o)) == Failed(NothingCreated500) <==> Silent(env, t.flushed)
  {
    EndsInErrorIff(l, env, items, t, Some(o), rest);
  }

  /** A store that keeps nothing and says nothing, a slow clock, and an offload that works. */
  function SilentStore(o: BulkOffload.Outcome): Env<int> {
    Env((k, b) => Wrote(Nothing, []), x => 0, k => 2.0, r => o, j => "")
  }

  const ONE_ROW_ONE_SECOND := Limits(10, 1, 1, 0, 1.0)

  lemma OneByOne(o: BulkOffload.Outcome, flushed: seq<seq<int>>)
    requires flushed != [] && WellSized(ONE_ROW_ONE_SECOND, SilentStore(o), flushed[0])
    ensures |Upto(flushed, 1)| == 1 && Crossed(ONE_ROW_ONE_SECOND, SilentStore(o), flushed, 0)
  {
    assert flushed[..1] == [flushed[0]];
    ConcatSnoc([], flushed[0]);
    assert [] + [flushed[0]] == [flushed[0]] && Concat<int>([]) + flushed[0] == flushed[0];
  }

  /** Whatever account is given of two items and that store, the second item is with the job. */
  lemma SilentStoreDefers(o: BulkOffload.Outcome, err: Option<Error>, t: Tally<int>,
                          offload: Option<BulkOffload.Outcome>, rest: seq<int>)
    requires o.IsSuccess()
    requires Accounts(ONE_ROW_ONE_SECOND, SilentStore(o), [0, 1], err, t, offload, rest)
    ensures err.None? && rest == [1] && offload == Some(o) && Silent(SilentStore(o), t.flushed)
  {
    var l, env := ONE_ROW_ONE_SECOND, SilentStore(o);
    assert err.None?;
    assert t.flushed == [] ==> Concat(t.flushed) + rest == rest;
    OneByOne(o, t.flushed);
    assert t.attempts != [];
    var k :| 0 <= k < |t.flushed| && CutAt(l, env, [0, 1], t.flushed, k, t.attempts[0]);
    assert k == 0;
    assert !NotApplicable(env, t.attempts[0]);
    assert rest == (Upto(t.flushed, 1) + rest)[1..];
  }

  /** The request itself: two items, and a server error with the second one already handed to a job. */
  method DeferredButFailed(o: BulkOffload.Outcome) returns (result: IngestResult, rest: seq<int>)
    requires o.IsSuccess()
    ensures result == Failed(NothingCreated500)
    ensures rest == [1] && SilentStore(o).offload(rest).IsSuccess()
  {
    var l, env, items := ONE_ROW_ONE_SECOND, SilentStore(o), [0, 1];
    var t;
    result, t, rest := IngestItems(l, env, Many(items));
    ghost var err, offload :| Accounts(l, env, items, err, t, offload, rest) &&
      result == if err.Some? then Failed(err.value) else Conclude(AsRows(t.ids), t.rejections, offload);
    SilentStoreDefers(o, err, t, offload, rest);
    DeferredButFailedIff(l, env, items, t, o, rest);
  }
}
