/**
 `_ingest_items`: a bulk write cut into bounded sub-batches, with a budget after which the
 rest is handed to the async ingestion process.

 The item store, the clock and the offload are arbitrary functions of the calls made to
 them; the loop's promises hold for all of them.
 */
module BulkIngest {
  import opened Options
  import opened JsonValues
  import opened Rejections
  import opened AcceptedIds
  import BulkOffload

  const MAX_FAILURE_SAMPLES: nat := 100

  // ---------------------------------------------------------------- what the loop talks to

  datatype Created = Listed(rows: seq<Row>) | One(row: Row) | Nothing

  /** An upsert writes (with per-row refusals), is refused as a batch, or raises. */
  datatype UpsertResult =
    | Wrote(created: Created, refused: seq<Rejection>)
    | BatchRefused(cause: Rejection, refused: seq<Rejection>)
    | ConflictRaised
    | ValueErrorRaised
    | OtherRaised

  datatype Error = TooManyItems | Conflict409 | BadRequest400 | Unexpected | UnresolvableId | NothingCreated500

  /** `upsert(k, batch)` is the k-th call's result, `elapsed(k)` the clock after it. */
  datatype Env<!T> = Env(
    upsert: (nat, seq<T>) -> UpsertResult, bytes: T -> nat, elapsed: nat -> real,
    offload: seq<T> -> BulkOffload.Outcome, repr: Json -> string)

  datatype Limits = Limits(maxBulk: int, rowCap: int, memoryMb: int, maxBytes: int, maxSeconds: real) {
    function ByteBudget(): (b: nat)
      ensures b >= 1048576 && b >= memoryMb * 1048576 && (b == 1048576 || b == memoryMb * 1048576)
    {
      (if memoryMb > 1 then memoryMb else 1) * 1024 * 1024
    }
    predicate GatesOff() { maxBytes <= 0 && maxSeconds <= 0.0 }
  }

  function RowsOf(r: UpsertResult): seq<Row> {
    if r.Wrote? then
      match r.created
      case Listed(rows) => rows
      case One(row) => [row]
      case Nothing => []
    else []
  }

  function RefusedOf(r: UpsertResult): seq<Rejection> {
    match r
    case Wrote(_, refused) => refused
    case BatchRefused(cause, refused) => [cause] + refused
    case _ => []
  }

  function ErrorOf(repr: Json -> string, r: UpsertResult): Option<Error> {
    match r
    case ConflictRaised => Some(Conflict409)
    case ValueErrorRaised => Some(BadRequest400)
    case OtherRaised => Some(Unexpected)
    case _ => if ResolveRows(repr, RowsOf(r)).None? then Some(UnresolvableId) else None
  }

  // ---------------------------------------------------------------- sums and concatenations

  function Concat<T>(ss: seq<seq<T>>): seq<T> {
    if ss == [] then [] else Concat(ss[..|ss| - 1]) + ss[|ss| - 1]
  }

  function Bytes<T>(env: Env<T>, b: seq<T>): nat {
    if b == [] then 0 else Bytes(env, b[..|b| - 1]) + env.bytes(b[|b| - 1])
  }

  lemma ConcatSnoc<T>(ss: seq<seq<T>>, s: seq<T>)
    ensures Concat(ss + [s]) == Concat(ss) + s
  {
    assert (ss + [s])[..|ss|] == ss;
  }

  lemma {:induction false} BytesConcat<T>(env: Env<T>, a: seq<T>, b: seq<T>)
    ensures Bytes(env, a + b) == Bytes(env, a) + Bytes(env, b)
    decreases |b|
  {
    if b == [] {
      assert a + b == a;
    } else {
      assert (a + b)[..|a + b| - 1] == a + b[..|b| - 1];
      BytesConcat(env, a, b[..|b| - 1]);
    }
  }

  /** `s[-n:]` when longer than n. */
  function LastN<T>(s: seq<T>, n: nat): seq<T> { if |s| > n then s[|s| - n..] else s }

  /** What is kept is the end, n long unless there is less. */
  lemma LastNIsSuffix<T>(s: seq<T>, n: nat, dropped: seq<T>, kept: seq<T>)
    requires s == dropped + kept && |kept| == (if |s| < n then |s| else n)
    ensures LastN(s, n) == kept
  {
  }

  /** Keeping the last n after every flush keeps the same samples as keeping them once at the end. */
  lemma TruncationCommutes<T>(a: seq<T>, b: seq<T>, n: nat)
    ensures LastN(LastN(a, n) + b, n) == LastN(a + b, n)
  {
  }

  /** The ids and refusals a sequence of flushes adds up to. */
  function IdsOf<T>(env: Env<T>, flushed: seq<seq<T>>): seq<string> {
    if flushed == [] then []
    else
      var k := |flushed| - 1;
      IdsOf(env, flushed[..k]) + FlushIds(env, k, flushed[k])
  }

  function FlushIds<T>(env: Env<T>, k: nat, b: seq<T>): seq<string> {
    var ids := ResolveRows(env.repr, RowsOf(env.upsert(k, b)));
    if ids.Some? then ids.value else []
  }

  function AllRefused<T>(env: Env<T>, flushed: seq<seq<T>>): seq<Rejection> {
    if flushed == [] then []
    else
      var k := |flushed| - 1;
      AllRefused(env, flushed[..k]) + RefusedOf(env.upsert(k, flushed[k]))
  }

  /** Which errors a store's answers turn into: its own two kinds, anything else, and rows without an id. */
  lemma ErrorKinds(repr: Json -> string, r: UpsertResult)
    ensures ErrorOf(repr, r) == Some(Conflict409) <==> r == ConflictRaised
    ensures ErrorOf(repr, r) == Some(BadRequest400) <==> r == ValueErrorRaised
    ensures ErrorOf(repr, r) == Some(Unexpected) <==> r == OtherRaised
    ensures ErrorOf(repr, r) == Some(UnresolvableId) <==>
            r.Wrote? && match r.created
                        case Listed(rows) => exists i :: 0 <= i < |rows| && ResolveRow(repr, rows[i]).None?
                        case One(row) => ResolveRow(repr, row).None?
                        case Nothing => false
  {
    if r.Wrote? {
      ResolvesIff(repr, RowsOf(r));
    }
  }

  lemma {:induction false} ResolvesIff(repr: Json -> string, rows: seq<Row>)
    ensures ResolveRows(repr, rows).None? <==> exists i :: 0 <= i < |rows| && ResolveRow(repr, rows[i]).None?
  {
    if rows != [] {
      var before := rows[..|rows| - 1];
      ResolvesIff(repr, before);
      assert forall i :: 0 <= i < |before| ==> before[i] == rows[i];
    }
  }

  lemma {:induction false} RefusalsUpTo<T>(env: Env<T>, flushed: seq<seq<T>>, k: nat)
    requires k <= |flushed|
    ensures AllRefused(env, flushed[..k]) <= AllRefused(env, flushed)
  {
    if k == |flushed| {
      assert flushed[..k] == flushed;
    } else {
      RefusalsUpTo(env, flushed[..|flushed| - 1], k);
      assert flushed[..|flushed| - 1][..k] == flushed[..k];
    }
  }

  lemma {:induction false} IdsUpTo<T>(env: Env<T>, flushed: seq<seq<T>>, k: nat)
    requires k <= |flushed|
    ensures IdsOf(env, flushed[..k]) <= IdsOf(env, flushed)
  {
    if k == |flushed| {
      assert flushed[..k] == flushed;
    } else {
      IdsUpTo(env, flushed[..|flushed| - 1], k);
      assert flushed[..|flushed| - 1][..k] == flushed[..k];
    }
  }

  lemma PrefixSnoc<T>(flushed: seq<seq<T>>, k: nat)
    requires k < |flushed|
    ensures flushed[..k + 1][..k] == flushed[..k] && flushed[..k + 1][k] == flushed[k] && |flushed[..k + 1]| == k + 1
  {
  }

  lemma RefusalsThrough<T>(env: Env<T>, flushed: seq<seq<T>>, k: nat)
    requires k < |flushed|
    ensures AllRefused(env, flushed[..k]) + RefusedOf(env.upsert(k, flushed[k])) <= AllRefused(env, flushed)
  {
    PrefixSnoc(flushed, k);
    RefusalsUpTo(env, flushed, k + 1);
  }

  lemma IdsThrough<T>(env: Env<T>, flushed: seq<seq<T>>, k: nat)
    requires k < |flushed|
    ensures IdsOf(env, flushed[..k]) + FlushIds(env, k, flushed[k]) <= IdsOf(env, flushed)
  {
    PrefixSnoc(flushed, k);
    IdsUpTo(env, flushed, k + 1);
  }

  lemma ResolveOne(repr: Json -> string, row: Row)
    ensures ResolveRow(repr, row).Some? ==> ResolveRows(repr, [row]) == Some([ResolveRow(repr, row).value])
  {
    assert [row][..0] == [] && ResolveRows(repr, []) == Some([]);
    if ResolveRow(repr, row).Some? {
      assert [] + [ResolveRow(repr, row).value] == [ResolveRow(repr, row).value];
    }
  }

  /**
   Everything a flush refused is reported right after what the flushes before it refused, the
   batch's own refusal first; and every row it stored right after those stored before.
   */
  lemma FlushIsReported<T>(env: Env<T>, flushed: seq<seq<T>>, k: nat)
    requires k < |flushed|
    ensures match env.upsert(k, flushed[k])
            case Wrote(_, refused) => AllRefused(env, flushed[..k]) + refused <= AllRefused(env, flushed)
            case BatchRefused(cause, refused) => AllRefused(env, flushed[..k]) + ([cause] + refused) <= AllRefused(env, flushed)
            case _ => true
    ensures match env.upsert(k, flushed[k])
            case Wrote(Listed(rows), _) =>
              var ids := ResolveRows(env.repr, rows);
              ids.Some? ==> IdsOf(env, flushed[..k]) + ids.value <= IdsOf(env, flushed)
            case Wrote(One(row), _) =>
              var id := ResolveRow(env.repr, row);
              id.Some? ==> IdsOf(env, flushed[..k]) + [id.value] <= IdsOf(env, flushed)
            case _ => true
  {
    var r := env.upsert(k, flushed[k]);
    RefusalsThrough(env, flushed, k);
    IdsThrough(env, flushed, k);
    if r.Wrote? && r.created.One? {
      ResolveOne(env.repr, r.created.row);
    }
  }

  // ---------------------------------------------------------------- sub-batches and gates

  /** A sub-batch has reached a limit: it is time to flush. */
  predicate AtLimit<T>(l: Limits, env: Env<T>, b: seq<T>) {
    |b| >= l.rowCap || Bytes(env, b) >= l.ByteBudget()
  }

  /** Non-empty, at most `max(1, row cap)` rows, and under the byte budget until its last item. */
  predicate WellSized<T>(l: Limits, env: Env<T>, b: seq<T>) {
    && b != []
    && |b| <= (if l.rowCap > 1 then l.rowCap else 1)
    && Bytes(env, b[..|b| - 1]) < l.ByteBudget()
  }

  /** What the first k sub-batches wrote. */
  function Upto<T>(flushed: seq<seq<T>>, k: nat): seq<T>
    requires k <= |flushed|
  {
    Concat(flushed[..k])
  }

  /** The in-process budget is used up after the k-th flush. */
  predicate Crossed<T>(l: Limits, env: Env<T>, flushed: seq<seq<T>>, k: nat)
    requires k < |flushed|
  {
    || (l.maxBytes > 0 && Bytes(env, Upto(flushed, k + 1)) >= l.maxBytes)
    || (l.maxSeconds > 0.0 && env.elapsed(k) >= l.maxSeconds)
  }

  /** `rest` is what was left at the first flush that used up the budget. */
  ghost predicate FirstCut<T>(l: Limits, env: Env<T>, items: seq<T>, flushed: seq<seq<T>>, rest: seq<T>) {
    exists k :: 0 <= k < |flushed| && CutAt(l, env, items, flushed, k, rest)
  }

  ghost predicate CutAt<T>(l: Limits, env: Env<T>, items: seq<T>, flushed: seq<seq<T>>, k: nat, rest: seq<T>)
    requires k < |flushed|
  {
    && rest != []
    && Upto(flushed, k + 1) + rest == items
    && Crossed(l, env, flushed, k)
    && forall j :: 0 <= j < k ==> !Crossed(l, env, flushed, j)
  }

  /** The budget was never used up while anything was left. */
  ghost predicate NeverCut<T>(l: Limits, env: Env<T>, items: seq<T>, flushed: seq<seq<T>>) {
    forall k :: 0 <= k < |flushed| && |Upto(flushed, k + 1)| < |items| ==> !Crossed(l, env, flushed, k)
  }

  // ---------------------------------------------------------------- what the loop carries

  /** Sub-batches written, their ids and refusal samples, and the remainders offered to the offload. */
  datatype Tally<T> = Tally(flushed: seq<seq<T>>, ids: seq<string>, rejections: seq<Rejection>, attempts: seq<seq<T>>)

  /** The k-th sub-batch was taken by the store, as a whole or row by row, and its rows have ids. */
  predicate WroteWell<T>(env: Env<T>, k: nat, b: seq<T>) {
    ErrorOf(env.repr, env.upsert(k, b)).None?
  }

  /** Every sub-batch was written without error, and they add up to the ids and samples carried. */
  ghost predicate Sums<T>(env: Env<T>, t: Tally<T>) {
    && (forall k :: 0 <= k < |t.flushed| ==> WroteWell(env, k, t.flushed[k]))
    && t.ids == IdsOf(env, t.flushed)
    && t.rejections == LastN(AllRefused(env, t.flushed), MAX_FAILURE_SAMPLES)
  }

  /** The sub-batches are well-sized, cut at a limit, written without error, and add up to what is carried. */
  ghost predicate FlushesSound<T>(l: Limits, env: Env<T>, t: Tally<T>) {
    && (forall k :: 0 <= k < |t.flushed| ==> WellSized(l, env, t.flushed[k]) && AtLimit(l, env, t.flushed[k]))
    && Sums(env, t)
  }

  /** An offload was tried once the budget ran out, at most once, and the loop goes on only if it did not apply. */
  ghost predicate GatesSound<T>(l: Limits, env: Env<T>, items: seq<T>, t: Tally<T>) {
    && |t.attempts| <= 1
    && (t.attempts == [] ==> NeverCut(l, env, items, t.flushed))
    && (t.attempts != [] ==> FirstCut(l, env, items, t.flushed, t.attempts[0]))
  }

  lemma FlushKeepsSums<T>(env: Env<T>, t: Tally<T>, b: seq<T>, t': Tally<T>)
    requires Sums(env, t) && WroteWell(env, |t.flushed|, b)
    requires var r := env.upsert(|t.flushed|, b);
             && t'.flushed == t.flushed + [b]
             && t'.ids == t.ids + ResolveRows(env.repr, RowsOf(r)).value
             && t'.rejections == LastN(t.rejections + RefusedOf(r), MAX_FAILURE_SAMPLES)
    ensures Sums(env, t')
  {
    ReportsSnoc(env, t.flushed, b);
    TruncationCommutes(AllRefused(env, t.flushed), RefusedOf(env.upsert(|t.flushed|, b)), MAX_FAILURE_SAMPLES);
    WroteWellSnoc(env, t.flushed, b);
  }

  lemma ReportsSnoc<T>(env: Env<T>, flushed: seq<seq<T>>, b: seq<T>)
    requires WroteWell(env, |flushed|, b)
    ensures IdsOf(env, flushed + [b]) == IdsOf(env, flushed) + ResolveRows(env.repr, RowsOf(env.upsert(|flushed|, b))).value
    ensures AllRefused(env, flushed + [b]) == AllRefused(env, flushed) + RefusedOf(env.upsert(|flushed|, b))
  {
    assert (flushed + [b])[..|flushed|] == flushed;
  }

  lemma WroteWellSnoc<T>(env: Env<T>, flushed: seq<seq<T>>, b: seq<T>)
    requires (forall k :: 0 <= k < |flushed| ==> WroteWell(env, k, flushed[k])) && WroteWell(env, |flushed|, b)
    ensures forall k :: 0 <= k < |flushed + [b]| ==> WroteWell(env, k, (flushed + [b])[k])
  {
  }

  lemma FlushKeepsSound<T>(l: Limits, env: Env<T>, t: Tally<T>, b: seq<T>, t': Tally<T>)
    requires FlushesSound(l, env, t) && WellSized(l, env, b) && AtLimit(l, env, b)
    requires t'.flushed == t.flushed + [b] && Sums(env, t')
    ensures FlushesSound(l, env, t')
  {
    forall k | 0 <= k < |t'.flushed|
      ensures WellSized(l, env, t'.flushed[k]) && AtLimit(l, env, t'.flushed[k])
    {
      if k < |t.flushed| {
        assert t'.flushed[k] == t.flushed[k];
      }
    }
  }

  /** One more item in an unfinished sub-batch keeps it well-sized. */
  lemma AppendItem<T>(l: Limits, env: Env<T>, items: seq<T>, idx: nat, done: seq<T>, b: seq<T>)
    requires idx < |items| && done + b == items[..idx]
    requires b != [] ==> !AtLimit(l, env, b)
    ensures done + (b + [items[idx]]) == items[..idx + 1]
    ensures Bytes(env, b + [items[idx]]) == Bytes(env, b) + env.bytes(items[idx])
    ensures WellSized(l, env, b + [items[idx]])
  {
    assert (b + [items[idx]])[..|b|] == b;
    assert done + (b + [items[idx]]) == (done + b) + [items[idx]];
  }

  lemma CutList<T>(items: seq<T>, idx: nat, done: seq<T>, b: seq<T>)
    requires idx <= |items| && done + b == items[..idx]
    ensures (done + b) + items[idx..] == items
    ensures done + (b + items[idx..]) == items
  {
    assert done + (b + items[idx..]) == (done + b) + items[idx..];
  }

  lemma UptoStable<T>(flushed: seq<seq<T>>, b: seq<T>, k: nat)
    requires k <= |flushed|
    ensures Upto(flushed + [b], k) == Upto(flushed, k)
    ensures Upto(flushed, |flushed|) == Concat(flushed)
  {
    assert (flushed + [b])[..k] == flushed[..k];
    assert flushed[..|flushed|] == flushed;
  }

  /** Earlier crossings are not changed by a later flush. */
  lemma CrossedStable<T>(l: Limits, env: Env<T>, flushed: seq<seq<T>>, b: seq<T>, k: nat)
    requires k < |flushed|
    ensures Crossed(l, env, flushed + [b], k) <==> Crossed(l, env, flushed, k)
  {
    UptoStable(flushed, b, k + 1);
  }

  lemma CutStable<T>(l: Limits, env: Env<T>, items: seq<T>, flushed: seq<seq<T>>, b: seq<T>, rest: seq<T>)
    requires FirstCut(l, env, items, flushed, rest)
    ensures FirstCut(l, env, items, flushed + [b], rest)
  {
    var k :| 0 <= k < |flushed| && CutAt(l, env, items, flushed, k, rest);
    UptoStable(flushed, b, k + 1);
    forall j | 0 <= j <= k
      ensures Crossed(l, env, flushed + [b], j) <==> Crossed(l, env, flushed, j)
    {
      CrossedStable(l, env, flushed, b, j);
    }
    assert CutAt(l, env, items, flushed + [b], k, rest);
  }

  /** The gate stayed shut at this flush: nothing tried yet is still right. */
  lemma NoCutHere<T>(l: Limits, env: Env<T>, items: seq<T>, flushed: seq<seq<T>>, b: seq<T>)
    requires NeverCut(l, env, items, flushed)
    requires Crossed(l, env, flushed + [b], |flushed|) ==> |Concat(flushed + [b])| >= |items|
    ensures NeverCut(l, env, items, flushed + [b])
  {
    var all := flushed + [b];
    forall k | 0 <= k < |all| && |Upto(all, k + 1)| < |items|
      ensures !Crossed(l, env, all, k)
    {
      if k < |flushed| {
        UptoStable(flushed, b, k + 1);
        CrossedStable(l, env, flushed, b, k);
      } else {
        assert all[..k + 1] == all;
      }
    }
  }

  /** The gate opened at this flush, for the first time. */
  lemma CutHere<T>(l: Limits, env: Env<T>, items: seq<T>, flushed: seq<seq<T>>, b: seq<T>, rest: seq<T>)
    requires NeverCut(l, env, items, flushed)
    requires rest != [] && Concat(flushed + [b]) + rest == items
    requires Crossed(l, env, flushed + [b], |flushed|)
    ensures FirstCut(l, env, items, flushed + [b], rest)
  {
    var all := flushed + [b];
    assert all[..|flushed| + 1] == all;
    forall j | 0 <= j < |flushed|
      ensures !Crossed(l, env, all, j)
    {
      UptoStable(flushed, b, j + 1);
      ConcatPrefix(all, j + 1);
      CrossedStable(l, env, flushed, b, j);
    }
    assert CutAt(l, env, items, all, |flushed|, rest);
  }

  lemma {:induction false} ConcatPrefix<T>(ss: seq<seq<T>>, k: nat)
    requires k <= |ss|
    ensures Concat(ss[..k]) <= Concat(ss)
  {
    if k == |ss| {
      assert ss[..k] == ss;
    } else {
      ConcatPrefix(ss[..|ss| - 1], k);
      assert ss[..|ss| - 1][..k] == ss[..k];
    }
  }

  // ---------------------------------------------------------------- one flush, and the gate after it

  /**
   `_flush`: one upsert.  When it goes through, the sub-batch counts as written and the ids
   and samples carried are again those of all sub-batches written so far; when it does not,
   nothing is carried over from it.
   */
  method Flush<T>(env: Env<T>, t: Tally<T>, batch: seq<T>) returns (err: Option<Error>, t': Tally<T>)
    requires Sums(env, t)
    ensures Sums(env, t') && t'.attempts == t.attempts
    ensures err.None? <==> WroteWell(env, |t.flushed|, batch)
    ensures err.None? ==> t'.flushed == t.flushed + [batch]
    ensures err.Some? ==> t' == t && err == ErrorOf(env.repr, env.upsert(|t.flushed|, batch))
  {
    t' := t;
    var r := env.upsert(|t.flushed|, batch);
    match r
    case ConflictRaised => err := Some(Conflict409);
    case ValueErrorRaised => err := Some(BadRequest400);
    case OtherRaised => err := Some(Unexpected);
    case _ =>
      var rejections := t.rejections + RefusedOf(r);
      if |rejections| > MAX_FAILURE_SAMPLES {
        rejections := rejections[|rejections| - MAX_FAILURE_SAMPLES..];
      }
      var resolved := ResolveAcceptedIds(env.repr, RowsOf(r));
      if resolved.None? {
        err := Some(UnresolvableId);
      } else {
        err := None;
        t' := t.(flushed := t.flushed + [batch], ids := t.ids + resolved.value, rejections := rejections);
        FlushKeepsSums(env, t, batch, t');
      }
  }

  /**
   The gate right after a flush: offer the remainder, once, when the budget is used up.
   `stop` says the remainder is dealt with: a job has it, or it is in the rejections.
   */
  method Gate<T>(l: Limits, env: Env<T>, items: seq<T>, ghost earlier: seq<seq<T>>, ghost batch: seq<T>, t: Tally<T>,
                 flushedBytes: nat, remainder: seq<T>)
      returns (stop: bool, t': Tally<T>, offload: Option<BulkOffload.Outcome>)
    requires t.flushed == earlier + [batch] && GatesSound(l, env, items, t.(flushed := earlier))
    requires t.rejections == LastN(AllRefused(env, t.flushed), MAX_FAILURE_SAMPLES)
    requires t.attempts != [] ==> NotApplicable(env, t.attempts[0])
    requires Concat(t.flushed) + remainder == items && flushedBytes == Bytes(env, Concat(t.flushed))
    ensures t'.flushed == t.flushed && t'.ids == t.ids
    ensures GatesSound(l, env, items, t')
    ensures l.GatesOff() ==> t'.attempts == t.attempts
    ensures t'.attempts != [] ==> (stop <==> !NotApplicable(env, t'.attempts[0]))
    ensures stop ==> remainder != [] && t'.attempts == [remainder]
    ensures offload == if stop && env.offload(remainder).IsSuccess() then Some(env.offload(remainder)) else None
    ensures t'.rejections == Samples(env, t.flushed, if stop then remainder else [])
  {
    stop, t', offload := false, t, None;
    var k := |t.flushed| - 1;
    var over := (l.maxBytes > 0 && flushedBytes >= l.maxBytes) || (l.maxSeconds > 0.0 && env.elapsed(k) >= l.maxSeconds);
    assert t.flushed[..k + 1] == t.flushed;
    assert over <==> Crossed(l, env, t.flushed, k);
    if t.attempts == [] && over && remainder != [] {
      CutHere(l, env, items, earlier, batch, remainder);
      t' := t.(attempts := [remainder]);
      var outcome := env.offload(remainder);
      if outcome.IsSuccess() {
        stop, offload := true, Some(outcome);
      } else if outcome.IsFailure() {
        stop := true;
        TruncationCommutes(AllRefused(env, t.flushed), outcome.rejections, MAX_FAILURE_SAMPLES);
        t' := t'.(rejections := LastN(t.rejections + outcome.rejections, MAX_FAILURE_SAMPLES));
      }
    } else if t.attempts == [] {
      NoCutHere(l, env, items, earlier, batch);
    } else {
      CutStable(l, env, items, earlier, batch, t.attempts[0]);
    }
  }

  /** The offload turned the remainder down without touching it: it is to be written inline. */
  predicate NotApplicable<T>(env: Env<T>, remainder: seq<T>) {
    !env.offload(remainder).IsSuccess() && !env.offload(remainder).IsFailure()
  }

  /** The refusal samples of a request: those of its sub-batches and, if its remainder could not be deferred, of that. */
  function Samples<T>(env: Env<T>, flushed: seq<seq<T>>, rest: seq<T>): seq<Rejection> {
    if rest != [] && env.offload(rest).IsFailure()
    then LastN(AllRefused(env, flushed) + env.offload(rest).rejections, MAX_FAILURE_SAMPLES)
    else LastN(AllRefused(env, flushed), MAX_FAILURE_SAMPLES)
  }

  // ---------------------------------------------------------------- the split path

  /** The loop between two items: `current` is the unfinished sub-batch. */
  ghost predicate Between<T>(l: Limits, env: Env<T>, items: seq<T>, idx: nat, t: Tally<T>, current: seq<T>) {
    && idx <= |items|
    && Concat(t.flushed) + current == items[..idx]
    && (current != [] ==> !AtLimit(l, env, current) && WellSized(l, env, current))
    && FlushesSound(l, env, t)
    && GatesSound(l, env, items, t)
    && (t.attempts != [] ==> NotApplicable(env, t.attempts[0]))
    && (l.GatesOff() ==> t.attempts == [])
  }

  /** What a request on the split path comes to. */
  ghost predicate Accounts<T>(l: Limits, env: Env<T>, items: seq<T>, err: Option<Error>, t: Tally<T>,
                              offload: Option<BulkOffload.Outcome>, rest: seq<T>) {
    // every item once, in order: written in some sub-batch, or in the remainder
    && Concat(t.flushed) + rest == items
    && (forall k :: 0 <= k < |t.flushed| ==> WellSized(l, env, t.flushed[k]) && WroteWell(env, k, t.flushed[k]))
    && (forall k :: 0 <= k < |t.flushed| - 1 ==> AtLimit(l, env, t.flushed[k]))
    // the reported ids and samples are those of the sub-batches, and of a remainder that could not be deferred
    && (err.None? ==> t.ids == IdsOf(env, t.flushed) && t.rejections == Samples(env, t.flushed, rest))
    // at most one offload, of what was left when the budget first ran out; none with the gates off
    && |t.attempts| <= 1
    && (l.GatesOff() ==> t.attempts == [])
    && (t.attempts != [] ==> FirstCut(l, env, items, t.flushed, t.attempts[0]))
    && (err.None? && t.attempts == [] ==> rest == [] && NeverCut(l, env, items, t.flushed))
    // a remainder is left only to a named job or to the rejections; otherwise it was written inline
    && (err.None? && t.attempts != [] ==> rest == if NotApplicable(env, t.attempts[0]) then [] else t.attempts[0])
    && (err.None? ==> offload == if rest != [] && env.offload(rest).IsSuccess() then Some(env.offload(rest)) else None)
    // an error is that of an upsert, whose batch does not count as written
    && (err.Some? ==> offload.None? && exists n :: 0 < n <= |rest| && ErrorOf(env.repr, env.upsert(|t.flushed|, rest[..n])) == err)
  }

  /** The bytes written by the first k sub-batches have not reached the byte budget, nor the clock the time budget. */
  predicate WithinBudget<T>(l: Limits, env: Env<T>, flushed: seq<seq<T>>, k: nat)
    requires k < |flushed|
  {
    && (l.maxBytes > 0 ==> Bytes(env, Concat(flushed[..k + 1])) < l.maxBytes)
    && (l.maxSeconds > 0.0 ==> env.elapsed(k) < l.maxSeconds)
  }

  /**
   Where a request is cut: an offload is tried exactly when some flush that leaves items over
   brings the bytes written, or the clock, up to its limit; and at the first such flush, with
   all that is left.
   */
  lemma CutWhereBudgetEnds<T>(l: Limits, env: Env<T>, items: seq<T>, t: Tally<T>, offload: Option<BulkOffload.Outcome>, rest: seq<T>)
    requires Accounts(l, env, items, None, t, offload, rest)
    ensures t.attempts == [] ==>
              forall k :: 0 <= k < |t.flushed| && |Concat(t.flushed[..k + 1])| < |items| ==> WithinBudget(l, env, t.flushed, k)
    ensures t.attempts != [] ==>
              exists k :: && 0 <= k < |t.flushed|
                          && Concat(t.flushed[..k + 1]) + t.attempts[0] == items && t.attempts[0] != []
                          && !WithinBudget(l, env, t.flushed, k)
                          && forall j :: 0 <= j < k ==> WithinBudget(l, env, t.flushed, j)
  {
    forall k | 0 <= k < |t.flushed|
      ensures WithinBudget(l, env, t.flushed, k) <==> !Crossed(l, env, t.flushed, k)
      ensures Upto(t.flushed, k + 1) == Concat(t.flushed[..k + 1])
    {
    }
    if t.attempts != [] {
      var k :| 0 <= k < |t.flushed| && CutAt(l, env, items, t.flushed, k, t.attempts[0]);
      assert !WithinBudget(l, env, t.flushed, k);
    }
  }

  /** The account's sizes and gates in plain numbers. */
  lemma AccountMeans<T>(l: Limits, env: Env<T>, items: seq<T>, err: Option<Error>, t: Tally<T>,
                        offload: Option<BulkOffload.Outcome>, rest: seq<T>, k: nat)
    requires Accounts(l, env, items, err, t, offload, rest)
    ensures k < |t.flushed| ==>
              var b := t.flushed[k];
              && b != [] && (|b| <= l.rowCap || |b| == 1)
              && Bytes(env, b[..|b| - 1]) < l.ByteBudget()
              && (k < |t.flushed| - 1 ==> |b| >= l.rowCap || Bytes(env, b) >= l.ByteBudget())
    ensures l.maxBytes <= 0 && l.maxSeconds <= 0.0 ==> t.attempts == []
    ensures |t.attempts| <= 1
  {
  }

  /** `t.flushed` are the sub-batches written, `t.attempts` the remainders offered, `rest` what was not written inline. */
  method SplitIngest<T>(l: Limits, env: Env<T>, items: seq<T>)
      returns (err: Option<Error>, t: Tally<T>, offload: Option<BulkOffload.Outcome>, rest: seq<T>)
    ensures Accounts(l, env, items, err, t, offload, rest)
  {
    t := Tally([], [], [], []);
    var current: seq<T> := [];
    var currentBytes, flushedBytes := 0, 0;
    var idx := 0;
    while idx < |items|
      invariant Between(l, env, items, idx, t, current)
      invariant currentBytes == Bytes(env, current) && flushedBytes == Bytes(env, Concat(t.flushed))
    {
      AppendItem(l, env, items, idx, Concat(t.flushed), current);
      current := current + [items[idx]];
      currentBytes := currentBytes + env.bytes(items[idx]);
      idx := idx + 1;
      if |current| >= l.rowCap || currentBytes >= l.ByteBudget() {
        var stop: bool;
        flushedBytes := flushedBytes + currentBytes;
        err, stop, t, offload, rest := FlushAndGate(l, env, items, idx, t, current, flushedBytes);
        if stop {
          return;
        }
        current, currentBytes := [], 0;
      }
    }
    err, t, rest := FlushLeftover(l, env, items, t, current);
    offload := None;
  }

  /** A flush inside the loop and the gate after it; `stop` when the request ends here, deferred, refused or in error. */
  method FlushAndGate<T>(l: Limits, env: Env<T>, items: seq<T>, idx: nat, t: Tally<T>, batch: seq<T>, flushedBytes: nat)
      returns (err: Option<Error>, stop: bool, t': Tally<T>, offload: Option<BulkOffload.Outcome>, rest: seq<T>)
    requires idx <= |items| && Concat(t.flushed) + batch == items[..idx]
    requires FlushesSound(l, env, t) && GatesSound(l, env, items, t)
    requires t.attempts != [] ==> NotApplicable(env, t.attempts[0])
    requires l.GatesOff() ==> t.attempts == []
    requires WellSized(l, env, batch) && AtLimit(l, env, batch)
    requires flushedBytes == Bytes(env, Concat(t.flushed)) + Bytes(env, batch)
    ensures stop ==> Accounts(l, env, items, err, t', offload, rest)
    ensures !stop ==> Between(l, env, items, idx, t', []) && flushedBytes == Bytes(env, Concat(t'.flushed))
  {
    offload, rest := None, batch + items[idx..];
    CutList(items, idx, Concat(t.flushed), batch);
    err, t' := Flush(env, t, batch);
    if err.Some? {
      assert rest[..|batch|] == batch;
      stop := true;
      return;
    }
    ReadyForGate(l, env, items, idx, t, batch, t');
    ghost var written := t';
    stop, t', offload := Gate(l, env, items, t.flushed, batch, t', flushedBytes, items[idx..]);
    rest := items[idx..];
    if stop {
      StoppedAccounts(l, env, items, written, t', offload, rest);
    } else {
      GoneOn(l, env, items, idx, written, t');
    }
  }

  lemma ReadyForGate<T>(l: Limits, env: Env<T>, items: seq<T>, idx: nat, t: Tally<T>, batch: seq<T>, t': Tally<T>)
    requires idx <= |items| && Concat(t.flushed) + batch == items[..idx]
    requires FlushesSound(l, env, t) && GatesSound(l, env, items, t) && WellSized(l, env, batch) && AtLimit(l, env, batch)
    requires t'.flushed == t.flushed + [batch] && t'.attempts == t.attempts && Sums(env, t')
    ensures FlushesSound(l, env, t') && GatesSound(l, env, items, t'.(flushed := t.flushed))
    ensures Concat(t'.flushed) + items[idx..] == items
    ensures Bytes(env, Concat(t'.flushed)) == Bytes(env, Concat(t.flushed)) + Bytes(env, batch)
  {
    FlushKeepsSound(l, env, t, batch, t');
    ConcatSnoc(t.flushed, batch);
    BytesConcat(env, Concat(t.flushed), batch);
    CutList(items, idx, Concat(t.flushed), batch);
    assert t'.(flushed := t.flushed).attempts == t.attempts;
  }

  /** A gate that stopped the request has dealt with the remainder. */
  lemma StoppedAccounts<T>(l: Limits, env: Env<T>, items: seq<T>, t: Tally<T>, t': Tally<T>,
                           offload: Option<BulkOffload.Outcome>, rest: seq<T>)
    requires FlushesSound(l, env, t) && t'.flushed == t.flushed && t'.ids == t.ids
    requires GatesSound(l, env, items, t') && (l.GatesOff() ==> t'.attempts == [])
    requires rest != [] && t'.attempts == [rest] && !NotApplicable(env, rest)
    requires Concat(t.flushed) + rest == items
    requires offload == if env.offload(rest).IsSuccess() then Some(env.offload(rest)) else None
    requires t'.rejections == Samples(env, t.flushed, rest)
    ensures Accounts(l, env, items, None, t', offload, rest)
  {
  }

  /** A gate that did not leaves the loop between two items. */
  lemma GoneOn<T>(l: Limits, env: Env<T>, items: seq<T>, idx: nat, t: Tally<T>, t': Tally<T>)
    requires idx <= |items| && Concat(t.flushed) + items[idx..] == items
    requires FlushesSound(l, env, t) && t'.flushed == t.flushed && t'.ids == t.ids
    requires GatesSound(l, env, items, t') && (l.GatesOff() ==> t'.attempts == [])
    requires t'.attempts != [] ==> NotApplicable(env, t'.attempts[0])
    requires t'.rejections == Samples(env, t.flushed, [])
    ensures Between(l, env, items, idx, t', [])
  {
    assert Concat(t'.flushed) + [] == items[..idx];
  }

  /** The last, possibly short, sub-batch. */
  method FlushLeftover<T>(l: Limits, env: Env<T>, items: seq<T>, t: Tally<T>, current: seq<T>)
      returns (err: Option<Error>, t': Tally<T>, rest: seq<T>)
    requires Between(l, env, items, |items|, t, current)
    ensures Accounts(l, env, items, err, t', None, rest)
  {
    assert items[..|items|] == items;
    err, t', rest := None, t, current;
    if current != [] {
      err, t' := Flush(env, t, current);
      if err.None? {
        LeftoverAccounts(l, env, items, t, current, t');
        rest := [];
      } else {
        assert rest[..|current|] == current;
      }
    }
  }

  /** With the leftovers written, the whole list is, and nothing remains. */
  lemma LeftoverAccounts<T>(l: Limits, env: Env<T>, items: seq<T>, t: Tally<T>, b: seq<T>, t': Tally<T>)
    requires Between(l, env, items, |items|, t, b) && b != []
    requires t'.flushed == t.flushed + [b] && t'.attempts == t.attempts && Sums(env, t')
    ensures Accounts(l, env, items, None, t', None, [])
  {
    assert items[..|items|] == items;
    ConcatSnoc(t.flushed, b);
    assert Concat(t'.flushed) + [] == items;
    LeftoverSizes(l, env, t, b, t');
    FinalFlushKeepsGates(l, env, items, t, b, t');
  }

  lemma LeftoverSizes<T>(l: Limits, env: Env<T>, t: Tally<T>, b: seq<T>, t': Tally<T>)
    requires FlushesSound(l, env, t) && WellSized(l, env, b) && t'.flushed == t.flushed + [b]
    ensures forall k :: 0 <= k < |t'.flushed| ==> WellSized(l, env, t'.flushed[k])
    ensures forall k :: 0 <= k < |t'.flushed| - 1 ==> AtLimit(l, env, t'.flushed[k])
  {
    forall k | 0 <= k < |t.flushed|
      ensures t'.flushed[k] == t.flushed[k]
    {
    }
  }

  /** The flush of the leftovers ends the list, so no gate could open at it. */
  lemma FinalFlushKeepsGates<T>(l: Limits, env: Env<T>, items: seq<T>, t: Tally<T>, b: seq<T>, t': Tally<T>)
    requires GatesSound(l, env, items, t) && Concat(t.flushed) + b == items
    requires t'.flushed == t.flushed + [b] && t'.attempts == t.attempts
    ensures GatesSound(l, env, items, t')
  {
    ConcatSnoc(t.flushed, b);
    if t.attempts == [] {
      NoCutHere(l, env, items, t.flushed, b);
    } else {
      CutStable(l, env, items, t.flushed, b, t.attempts[0]);
    }
  }
}
