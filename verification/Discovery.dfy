/**
 Protocol lookup: instances from four registries, filtered, de-duplicated, sorted by
 priority, behind two LRU caches that every registration clears.
 */
module Discovery {
  import opened Options

  /** Instances and protocols by identity. */
  type Obj = int
  type Proto = int

  /** What `is_available` says when it is there and synchronous. */
  datatype Probe = NoProbe | Says(yes: bool) | ProbeRaises

  /** The parts of the process that discovery looks at but does not own. */
  datatype World = World(
    modules: seq<Option<Obj>>, extensions: seq<Option<Obj>>, tasks: seq<Option<Obj>>,
    implements: (Obj, Proto) -> bool, probe: Obj -> Probe, priority: Obj -> int)
  {
    predicate Available(o: Obj) { probe(o).NoProbe? || (probe(o).Says? && probe(o).yes) }
    predicate Matches(o: Obj, p: Proto) { implements(o, p) }
    predicate Usable(o: Obj, p: Proto) { implements(o, p) && Available(o) }
  }

  function Present(slots: seq<Option<Obj>>): seq<Obj> {
    if slots == [] then []
    else (if slots[0].Some? then [slots[0].value] else []) + Present(slots[1..])
  }

  lemma {:induction false} PresentMembers(slots: seq<Option<Obj>>, o: Obj)
    ensures o in Present(slots) <==> Some(o) in slots
  {
    if slots != [] {
      PresentMembers(slots[1..], o);
      assert slots == [slots[0]] + slots[1..];
    }
  }

  /** The order in which candidates are met. */
  function Candidates(w: World, plugins: seq<Obj>): seq<Obj> {
    plugins + Present(w.modules) + Present(w.extensions) + Present(w.tasks)
  }

  /** An instance is in one of the four registries. */
  predicate Registered(w: World, plugins: seq<Obj>, o: Obj) {
    o in plugins || Some(o) in w.modules || Some(o) in w.extensions || Some(o) in w.tasks
  }

  /** It serves the protocol and does not say, or fail to say, that it cannot. */
  predicate Serves(w: World, o: Obj, p: Proto) {
    w.implements(o, p) && !w.probe(o).ProbeRaises? && w.probe(o) != Says(false)
  }

  /** The candidates are exactly the registered instances, and the usable ones exactly those that serve. */
  lemma CandidatesAre(w: World, plugins: seq<Obj>, o: Obj, p: Proto)
    ensures o in Candidates(w, plugins) <==> Registered(w, plugins, o)
    ensures w.Usable(o, p) <==> Serves(w, o, p)
  {
    PresentMembers(w.modules, o);
    PresentMembers(w.extensions, o);
    PresentMembers(w.tasks, o);
  }

  // ---------------------------------------------------------------- filtering, first occurrences, stable sorting

  function Filter(keep: Obj -> bool, s: seq<Obj>): seq<Obj> {
    if s == [] then []
    else if keep(s[0]) then [s[0]] + Filter(keep, s[1..])
    else Filter(keep, s[1..])
  }

  /** The kept elements, each where it is first met; rejected ones are never marked as seen. */
  function FirstKept(keep: Obj -> bool, s: seq<Obj>): seq<Obj> {
    if s == [] then []
    else
      var before := FirstKept(keep, s[..|s| - 1]);
      var x := s[|s| - 1];
      if keep(x) && x !in before then before + [x] else before
  }

  function Insert(key: Obj -> int, x: Obj, s: seq<Obj>): seq<Obj> {
    if s == [] then [x]
    else if key(x) <= key(s[0]) then [x] + s
    else [s[0]] + Insert(key, x, s[1..])
  }

  function HasKey(key: Obj -> int, k: int): Obj -> bool { o => key(o) == k }

  /** A stable sort by key. */
  function Sort(key: Obj -> int, s: seq<Obj>): seq<Obj> {
    if s == [] then [] else Insert(key, s[0], Sort(key, s[1..]))
  }

  ghost predicate Sorted(key: Obj -> int, s: seq<Obj>) {
    forall i, j :: 0 <= i < j < |s| ==> key(s[i]) <= key(s[j])
  }

  lemma {:induction false} InsertAdds(key: Obj -> int, x: Obj, s: seq<Obj>)
    ensures multiset(Insert(key, x, s)) == multiset(s) + multiset{x}
    ensures forall o :: o in Insert(key, x, s) ==> o == x || o in s
  {
    if s != [] {
      assert s == [s[0]] + s[1..];
      InsertAdds(key, x, s[1..]);
    }
  }

  lemma {:induction false} InsertIntoSorted(key: Obj -> int, x: Obj, s: seq<Obj>)
    requires Sorted(key, s)
    ensures Sorted(key, Insert(key, x, s))
  {
    if s != [] && key(x) > key(s[0]) {
      var rest := Insert(key, x, s[1..]);
      InsertIntoSorted(key, x, s[1..]);
      InsertAdds(key, x, s[1..]);
      forall j | 0 <= j < |rest|
        ensures key(s[0]) <= key(rest[j])
      {
        assert rest[j] in rest;
        if rest[j] != x {
          var i :| 0 <= i < |s[1..]| && s[1..][i] == rest[j];
          assert s[i + 1] == rest[j];
        }
      }
    }
  }

  /** The sort sorts and loses nothing ... */
  lemma {:induction false} SortSorts(key: Obj -> int, s: seq<Obj>)
    ensures Sorted(key, Sort(key, s)) && multiset(Sort(key, s)) == multiset(s)
  {
    if s != [] {
      SortSorts(key, s[1..]);
      InsertIntoSorted(key, s[0], Sort(key, s[1..]));
      InsertAdds(key, s[0], Sort(key, s[1..]));
      assert s == [s[0]] + s[1..];
    }
  }

  /** ... and keeps the order of equal keys. */
  lemma {:induction false} SortIsStable(key: Obj -> int, s: seq<Obj>, k: int)
    ensures Filter(HasKey(key, k), Sort(key, s)) == Filter(HasKey(key, k), s)
  {
    if s != [] {
      var rest := Sort(key, s[1..]);
      SortIsStable(key, s[1..], k);
      SortSorts(key, s[1..]);
      InsertFilter(key, HasKey(key, k), s[0], rest);
      if key(s[0]) == k {
        FilterKeeps(HasKey(key, k), rest);
        InsertAmongEquals(key, k, s[0], Filter(HasKey(key, k), rest));
      }
    }
  }

  lemma {:induction false} FilterKeeps(keep: Obj -> bool, s: seq<Obj>)
    ensures forall i :: 0 <= i < |Filter(keep, s)| ==> keep(Filter(keep, s)[i])
  {
    if s != [] {
      FilterKeeps(keep, s[1..]);
    }
  }

  lemma InsertAmongEquals(key: Obj -> int, k: int, x: Obj, s: seq<Obj>)
    requires key(x) == k && forall i :: 0 <= i < |s| ==> key(s[i]) == k
    ensures Insert(key, x, s) == [x] + s
  {
  }

  /** Inserting and then filtering is filtering and then inserting. */
  lemma {:induction false} InsertFilter(key: Obj -> int, keep: Obj -> bool, x: Obj, s: seq<Obj>)
    requires Sorted(key, s)
    ensures Filter(keep, Insert(key, x, s)) == if keep(x) then Insert(key, x, Filter(keep, s)) else Filter(keep, s)
  {
    if s == [] {
    } else if key(x) <= key(s[0]) {
      assert ([x] + s)[1..] == s;
      if keep(x) {
        FilterSubset(keep, s);
        var f := Filter(keep, s);
        if f != [] {
          assert f[0] in f;
          var i :| 0 <= i < |s| && s[i] == f[0];
          assert key(s[0]) <= key(s[i]);
        }
      }
    } else {
      InsertFilter(key, keep, x, s[1..]);
      assert ([s[0]] + Insert(key, x, s[1..]))[1..] == Insert(key, x, s[1..]);
      assert ([s[0]] + Filter(keep, s[1..]))[1..] == Filter(keep, s[1..]);
    }
  }

  lemma {:induction false} FilterSubset(keep: Obj -> bool, s: seq<Obj>)
    ensures forall o :: o in Filter(keep, s) <==> o in s && keep(o)
  {
    if s != [] {
      FilterSubset(keep, s[1..]);
      assert s == [s[0]] + s[1..];
    }
  }

  /** Stable sorting commutes with filtering. */
  lemma {:induction false} SortFilter(key: Obj -> int, keep: Obj -> bool, s: seq<Obj>)
    ensures Filter(keep, Sort(key, s)) == Sort(key, Filter(keep, s))
  {
    if s != [] {
      var rest := s[1..];
      SortFilter(key, keep, rest);
      SortSorts(key, rest);
      InsertFilter(key, keep, s[0], Sort(key, rest));
      if keep(s[0]) {
        SortCons(key, s[0], Filter(keep, rest));
      }
    }
  }

  lemma SortCons(key: Obj -> int, x: Obj, s: seq<Obj>)
    ensures Sort(key, [x] + s) == Insert(key, x, Sort(key, s))
  {
    assert ([x] + s)[1..] == s;
  }

  lemma {:induction false} FilterSnoc(keep: Obj -> bool, s: seq<Obj>, x: Obj)
    ensures Filter(keep, s + [x]) == Filter(keep, s) + if keep(x) then [x] else []
  {
    if s != [] {
      FilterSnoc(keep, s[1..], x);
      assert (s + [x])[1..] == s[1..] + [x];
    } else {
      assert s + [x] == [x];
    }
  }

  /** Keeping fewer of the first occurrences is filtering them. */
  lemma {:induction false} FirstKeptFilter(loose: Obj -> bool, strict: Obj -> bool, s: seq<Obj>)
    requires forall o :: strict(o) ==> loose(o)
    ensures FirstKept(strict, s) == Filter(strict, FirstKept(loose, s))
  {
    if s != [] {
      var before, x := s[..|s| - 1], s[|s| - 1];
      FirstKeptFilter(loose, strict, before);
      FilterSubset(strict, FirstKept(loose, before));
      if loose(x) && x !in FirstKept(loose, before) {
        FilterSnoc(strict, FirstKept(loose, before), x);
      }
    }
  }

  // ---------------------------------------------------------------- the lookups, recomputed

  function UsableFor(w: World, p: Proto): Obj -> bool { o => w.Usable(o, p) }
  function MatchingFor(w: World, p: Proto): Obj -> bool { o => w.Matches(o, p) }

  function Found(w: World, plugins: seq<Obj>, p: Proto): seq<Obj> {
    Sort(w.priority, FirstKept(UsableFor(w, p), Candidates(w, plugins)))
  }

  /** `get_all_protocols`: unavailable instances included. */
  function FoundAll(w: World, plugins: seq<Obj>, p: Proto): seq<Obj> {
    Sort(w.priority, FirstKept(MatchingFor(w, p), Candidates(w, plugins)))
  }

  /** `get_protocols` is exactly the available part of `get_all_protocols`, in the same order. */
  lemma FoundIsAvailablePart(w: World, plugins: seq<Obj>, p: Proto)
    ensures Found(w, plugins, p) == Filter(o => w.Available(o), FoundAll(w, plugins, p))
  {
    var loose, strict := MatchingFor(w, p), UsableFor(w, p);
    var c := Candidates(w, plugins);
    FirstKeptFilter(loose, strict, c);
    SortFilter(w.priority, strict, FirstKept(loose, c));
    var all := FoundAll(w, plugins, p);
    forall i | 0 <= i < |all|
      ensures w.Matches(all[i], p)
    {
      AllFoundMatch(w, plugins, p, all[i]);
    }
    FilterAgrees(strict, o => w.Available(o), FoundAll(w, plugins, p));
  }

  lemma {:induction false} FilterAgrees(one: Obj -> bool, two: Obj -> bool, s: seq<Obj>)
    requires forall i :: 0 <= i < |s| ==> one(s[i]) == two(s[i])
    ensures Filter(one, s) == Filter(two, s)
  {
    if s != [] {
      FilterAgrees(one, two, s[1..]);
    }
  }

  lemma AllFoundMatch(w: World, plugins: seq<Obj>, p: Proto, o: Obj)
    requires o in FoundAll(w, plugins, p)
    ensures w.Matches(o, p)
  {
    var kept := FirstKept(MatchingFor(w, p), Candidates(w, plugins));
    SortSorts(w.priority, kept);
    assert o in multiset(kept);
    FirstKeptMembers(MatchingFor(w, p), Candidates(w, plugins));
    assert o in kept && MatchingFor(w, p)(o);
  }

  lemma {:induction false} FirstKeptMembers(keep: Obj -> bool, s: seq<Obj>)
    ensures forall o :: o in FirstKept(keep, s) <==> o in s && keep(o)
    ensures forall i, j :: 0 <= i < j < |FirstKept(keep, s)| ==> FirstKept(keep, s)[i] != FirstKept(keep, s)[j]
  {
    if s != [] {
      FirstKeptMembers(keep, s[..|s| - 1]);
      assert s == s[..|s| - 1] + [s[|s| - 1]];
    }
  }

  /** The single lookup returns an instance that serves, and none that serves comes before it in priority. */
  lemma HeadIsBest(w: World, plugins: seq<Obj>, p: Proto)
    ensures Found(w, plugins, p) == [] <==> forall o :: Registered(w, plugins, o) ==> !Serves(w, o, p)
    ensures Found(w, plugins, p) != [] ==>
              var best := Found(w, plugins, p)[0];
              && Registered(w, plugins, best) && Serves(w, best, p)
              && forall o :: Registered(w, plugins, o) && Serves(w, o, p) ==> w.priority(best) <= w.priority(o)
  {
    FoundMembers(w, plugins, p);
    var found := Found(w, plugins, p);
    SortSorts(w.priority, FirstKept(UsableFor(w, p), Candidates(w, plugins)));
    assert found != [] ==> found[0] in found;
    SortedHead(w.priority, found);
  }

  /** The lookup of all finds every registered instance that serves, once; the full listing every one that implements. */
  lemma FoundMembers(w: World, plugins: seq<Obj>, p: Proto)
    ensures forall o :: o in Found(w, plugins, p) <==> Registered(w, plugins, o) && Serves(w, o, p)
    ensures forall o :: o in FoundAll(w, plugins, p) <==> Registered(w, plugins, o) && w.implements(o, p)
  {
    var c := Candidates(w, plugins);
    FirstKeptMembers(UsableFor(w, p), c);
    FirstKeptMembers(MatchingFor(w, p), c);
    SortSorts(w.priority, FirstKept(UsableFor(w, p), c));
    SortSorts(w.priority, FirstKept(MatchingFor(w, p), c));
    SameMembers(Found(w, plugins, p), FirstKept(UsableFor(w, p), c));
    SameMembers(FoundAll(w, plugins, p), FirstKept(MatchingFor(w, p), c));
    forall o
      ensures o in c <==> Registered(w, plugins, o)
      ensures w.Usable(o, p) <==> Serves(w, o, p)
    {
      CandidatesAre(w, plugins, o, p);
    }
  }

  lemma SameMembers(a: seq<Obj>, b: seq<Obj>)
    requires multiset(a) == multiset(b)
    ensures forall o :: o in a <==> o in b
    ensures a == [] <==> b == []
  {
    assert forall o :: o in a <==> o in multiset(a);
    assert forall o :: o in b <==> o in multiset(b);
    assert |a| == |multiset(a)| && |b| == |multiset(b)|;
  }

  lemma SortedHead(key: Obj -> int, s: seq<Obj>)
    requires Sorted(key, s)
    ensures forall o :: o in s ==> key(s[0]) <= key(o)
  {
    forall o | o in s
      ensures key(s[0]) <= key(o)
    {
      var i :| 0 <= i < |s| && s[i] == o;
    }
  }

  lemma {:induction false} FirstKeptPrefix(keep: Obj -> bool, a: seq<Obj>, b: seq<Obj>)
    ensures FirstKept(keep, a) <= FirstKept(keep, a + b)
    decreases |b|
  {
    if b == [] {
      assert a + b == a;
    } else {
      FirstKeptPrefix(keep, a, b[..|b| - 1]);
      assert (a + b)[..|a + b| - 1] == a + b[..|b| - 1];
    }
  }

  lemma {:induction false} FilterConcat(keep: Obj -> bool, a: seq<Obj>, b: seq<Obj>)
    ensures Filter(keep, a + b) == Filter(keep, a) + Filter(keep, b)
  {
    if a == [] {
      assert a + b == b;
    } else {
      FilterConcat(keep, a[1..], b);
      assert (a + b)[1..] == a[1..] + b;
    }
  }

  /**
   Among equals in priority the one met first wins: wherever the candidates are cut in two,
   a usable one before the cut that is as good as the winner puts the winner before the cut.
   */
  lemma TieGoesToEarlier(w: World, plugins: seq<Obj>, p: Proto, a: seq<Obj>, b: seq<Obj>, o: Obj)
    requires Candidates(w, plugins) == a + b
    requires o in a && w.Usable(o, p)
    requires Found(w, plugins, p) != [] && w.priority(o) == w.priority(Found(w, plugins, p)[0])
    ensures Found(w, plugins, p)[0] in a
  {
    var keep, found := UsableFor(w, p), Found(w, plugins, p);
    var early, kept := FirstKept(keep, a), FirstKept(keep, a + b);
    var same := HasKey(w.priority, w.priority(found[0]));
    FirstKeptPrefix(keep, a, b);
    SortIsStable(w.priority, kept, w.priority(found[0]));
    FirstKeptMembers(keep, a);
    FilterSubset(same, early);
    assert o in Filter(same, early);
    FilterPrefix(same, early, kept);
    assert found[0] == Filter(same, found)[0] == Filter(same, early)[0];
    assert found[0] in Filter(same, early);
  }

  /** So plugins come before modules, modules before extensions, extensions before tasks. */
  lemma RegistriesInOrder(w: World, plugins: seq<Obj>, p: Proto, o: Obj)
    requires Found(w, plugins, p) != [] && Serves(w, o, p) && w.priority(o) == w.priority(Found(w, plugins, p)[0])
    ensures var best := Found(w, plugins, p)[0];
            && (o in plugins ==> best in plugins)
            && (Some(o) in w.modules ==> best in plugins || Some(best) in w.modules)
            && (Some(o) in w.extensions ==> best in plugins || Some(best) in w.modules || Some(best) in w.extensions)
  {
    var best := Found(w, plugins, p)[0];
    var ms, es, ts := Present(w.modules), Present(w.extensions), Present(w.tasks);
    CandidatesAre(w, plugins, o, p);
    Splits(plugins, ms, es, ts);
    if o in plugins {
      TieGoesToEarlier(w, plugins, p, plugins, ms + es + ts, o);
    }
    if Some(o) in w.modules {
      PresentMembers(w.modules, o);
      TieGoesToEarlier(w, plugins, p, plugins + ms, es + ts, o);
      PresentMembers(w.modules, best);
    }
    if Some(o) in w.extensions {
      PresentMembers(w.extensions, o);
      TieGoesToEarlier(w, plugins, p, plugins + ms + es, ts, o);
      PresentMembers(w.modules, best);
      PresentMembers(w.extensions, best);
    }
  }

  lemma Splits(a: seq<Obj>, b: seq<Obj>, c: seq<Obj>, d: seq<Obj>)
    ensures a + b + c + d == a + (b + c + d) == (a + b) + (c + d) == (a + b + c) + d
  {
  }

  lemma FilterPrefix(keep: Obj -> bool, early: seq<Obj>, all: seq<Obj>)
    requires early <= all
    ensures Filter(keep, early) <= Filter(keep, all)
  {
    assert all == early + all[|early|..];
    FilterConcat(keep, early, all[|early|..]);
  }

  // ---------------------------------------------------------------- the caches

  const CACHE_SIZE: nat := 128

  /** `lru_cache`: most recently used last. */
  type Lru<V> = seq<(Proto, V)>

  predicate Cached<V>(c: Lru<V>, p: Proto) { exists i :: 0 <= i < |c| && c[i].0 == p }

  function Lookup<V>(c: Lru<V>, p: Proto): V
    requires Cached(c, p)
  {
    if c[0].0 == p then c[0].1 else Lookup(c[1..], p)
  }

  function Without<V>(c: Lru<V>, p: Proto): Lru<V> {
    if c == [] then [] else (if c[0].0 == p then [] else [c[0]]) + Without(c[1..], p)
  }

  /** Insert or refresh an entry, evicting the least recently used one when full. */
  function Touch<V>(c: Lru<V>, p: Proto, v: V): Lru<V> {
    var rest := Without(c, p);
    (if |rest| >= CACHE_SIZE then rest[|rest| - CACHE_SIZE + 1..] else rest) + [(p, v)]
  }

  /** Every entry says what a recomputation would. */
  ghost predicate Fresh<V>(c: Lru<V>, answer: Proto -> V) {
    forall i :: 0 <= i < |c| ==> c[i].1 == answer(c[i].0)
  }

  lemma {:induction false} LookupIsFresh<V>(c: Lru<V>, p: Proto, answer: Proto -> V)
    requires Cached(c, p) && Fresh(c, answer)
    ensures Lookup(c, p) == answer(p)
  {
    if c[0].0 != p {
      var i :| 0 <= i < |c| && c[i].0 == p;
      assert c[1..][i - 1].0 == p;
      LookupIsFresh(c[1..], p, answer);
    }
  }

  lemma {:induction false} WithoutIsFresh<V>(c: Lru<V>, p: Proto, answer: Proto -> V)
    requires Fresh(c, answer)
    ensures |Without(c, p)| <= |c| && Fresh(Without(c, p), answer)
  {
    if c != [] {
      WithoutIsFresh(c[1..], p, answer);
    }
  }

  lemma TouchKeepsFresh<V>(c: Lru<V>, p: Proto, answer: Proto -> V)
    requires Fresh(c, answer) && |c| <= CACHE_SIZE
    ensures Fresh(Touch(c, p, answer(p)), answer) && |Touch(c, p, answer(p))| <= CACHE_SIZE
  {
    WithoutIsFresh(c, p, answer);
  }

  lemma {:induction false} WithoutOnly<V>(c: Lru<V>, p: Proto, q: Proto)
    ensures !Cached(Without(c, p), p)
    ensures q != p ==> (Cached(Without(c, p), q) <==> Cached(c, q))
  {
    if c != [] {
      WithoutOnly(c[1..], p, q);
      assert c == [c[0]] + c[1..];
      CachedConcat([c[0]], c[1..], q);
      CachedConcat(if c[0].0 == p then [] else [c[0]], Without(c[1..], p), q);
      CachedConcat(if c[0].0 == p then [] else [c[0]], Without(c[1..], p), p);
    }
  }

  lemma CachedConcat<V>(a: Lru<V>, b: Lru<V>, q: Proto)
    ensures Cached(a + b, q) <==> Cached(a, q) || Cached(b, q)
  {
    if i :| 0 <= i < |a| && a[i].0 == q {
      assert (a + b)[i].0 == q;
    }
    if i :| 0 <= i < |b| && b[i].0 == q {
      assert (a + b)[|a| + i].0 == q;
    }
  }

  /** What was just used is remembered, and nothing else is forgotten before the cache is full; then the longest unused is. */
  lemma TouchRemembers<V>(c: Lru<V>, p: Proto, v: V, q: Proto)
    ensures Cached(Touch(c, p, v), p)
    ensures q != p && |Without(c, p)| < 128 ==> (Cached(Touch(c, p, v), q) <==> Cached(c, q))
    ensures q != p && |Without(c, p)| == 128 ==>
              (Cached(Touch(c, p, v), q) <==> Cached(Without(c, p)[1..], q))
  {
    var rest := Without(c, p);
    WithoutOnly(c, p, q);
    CachedConcat(rest, [(p, v)], q);
    if |rest| == CACHE_SIZE {
      CachedConcat(rest[1..], [(p, v)], q);
    }
    assert Touch(c, p, v)[|Touch(c, p, v)| - 1].0 == p;
  }

  // ---------------------------------------------------------------- the registry

  function ListAnswer(w: World, plugins: seq<Obj>): Proto -> seq<Obj> { p => Found(w, plugins, p) }
  function HeadAnswer(w: World, plugins: seq<Obj>): Proto -> Option<Obj> { p => Head(Found(w, plugins, p)) }

  function Head(s: seq<Obj>): Option<Obj> { if s == [] then None else Some(s[0]) }

  function OtherThan(o: Obj): Obj -> bool { x => x != o }

  lemma {:induction false} FilterAll(keep: Obj -> bool, s: seq<Obj>)
    requires forall i :: 0 <= i < |s| ==> keep(s[i])
    ensures Filter(keep, s) == s
  {
    if s != [] {
      FilterAll(keep, s[1..]);
    }
  }

  ghost predicate Distinct(s: seq<Obj>) {
    forall i, j :: 0 <= i < j < |s| ==> s[i] != s[j]
  }

  lemma {:induction false} FilterDistinct(keep: Obj -> bool, s: seq<Obj>)
    requires Distinct(s)
    ensures Distinct(Filter(keep, s))
  {
    if s != [] {
      FilterDistinct(keep, s[1..]);
      FilterSubset(keep, s[1..]);
      assert s[0] !in s[1..];
    }
  }

  /** Taking out the one occurrence leaves the others in their order. */
  lemma RemovedOnce(s: seq<Obj>, i: nat)
    requires i < |s| && Distinct(s)
    ensures s[..i] + s[i + 1..] == Filter(OtherThan(s[i]), s)
  {
    var keep, front, back := OtherThan(s[i]), s[..i], s[i + 1..];
    FilterAll(keep, front);
    FilterAll(keep, back);
    FilterConcat(keep, front, [s[i]] + back);
    SplitAround(s, i);
    FilterRejects(keep, s[i], back);
  }

  lemma SplitAround(s: seq<Obj>, i: nat)
    requires i < |s|
    ensures s == s[..i] + ([s[i]] + s[i + 1..])
  {
  }

  lemma FilterRejects(keep: Obj -> bool, x: Obj, s: seq<Obj>)
    requires !keep(x)
    ensures Filter(keep, [x] + s) == Filter(keep, s)
  {
    assert ([x] + s)[1..] == s;
  }

  class Registry {
    var world: World
    var plugins: seq<Obj>
    var lists: Lru<seq<Obj>>
    var heads: Lru<Option<Obj>>

    /** Whatever is cached is what discovery would find right now. */
    ghost predicate Valid()
      reads this
    {
      && |lists| <= CACHE_SIZE && |heads| <= CACHE_SIZE
      && Fresh(lists, ListAnswer(world, plugins))
      && Fresh(heads, HeadAnswer(world, plugins))
      && Distinct(plugins)
    }

    constructor (world: World)
      ensures Valid() && this.world == world && plugins == []
    {
      this.world := world;
      plugins, lists, heads := [], [], [];
    }

    method RegisterPlugin(o: Obj)
      requires Valid()
      modifies this
      ensures Valid() && world == old(world)
      ensures plugins == if o in old(plugins) then old(plugins) else old(plugins) + [o]
    {
      if o !in plugins {
        plugins := plugins + [o];
        lists, heads := [], [];
      }
    }

    method UnregisterPlugin(o: Obj)
      requires Valid()
      modifies this
      ensures Valid() && world == old(world)
      ensures plugins == Filter(OtherThan(o), old(plugins)) && o !in plugins
    {
      if o in plugins {
        var i := 0;
        while i < |plugins| && plugins[i] != o
          invariant 0 <= i <= |plugins| && forall j :: 0 <= j < i ==> plugins[j] != o
        {
          i := i + 1;
        }
        RemovedOnce(plugins, i);
        FilterDistinct(OtherThan(o), plugins);
        FilterSubset(OtherThan(o), plugins);
        plugins := plugins[..i] + plugins[i + 1..];
        lists, heads := [], [];
      } else {
        FilterAll(OtherThan(o), plugins);
      }
    }

    /** Instance slots and availability change only together with a cache clear. */
    method Reconfigure(w: World)
      requires Valid()
      modifies this
      ensures Valid() && world == w && plugins == old(plugins)
    {
      world := w;
      lists, heads := [], [];
    }

    /** The uncached discovery: one pass over the candidates, then the sort. */
    method Discover(p: Proto) returns (found: seq<Obj>)
      ensures found == Found(world, plugins, p)
    {
      var c := Candidates(world, plugins);
      found := [];
      var i := 0;
      while i < |c|
        invariant 0 <= i <= |c|
        invariant found == FirstKept(UsableFor(world, p), c[..i])
      {
        assert c[..i + 1][..i] == c[..i];
        if c[i] !in found && world.Usable(c[i], p) {
          found := found + [c[i]];
        }
        i := i + 1;
      }
      assert c[..i] == c;
      found := Sort(world.priority, found);
    }

    method GetProtocols(p: Proto) returns (found: seq<Obj>)
      requires Valid()
      modifies this`lists
      ensures Valid()
      ensures found == Found(world, plugins, p)
    {
      if Cached(lists, p) {
        LookupIsFresh(lists, p, ListAnswer(world, plugins));
        found := Lookup(lists, p);
      } else {
        found := Discover(p);
      }
      TouchKeepsFresh(lists, p, ListAnswer(world, plugins));
      lists := Touch(lists, p, found);
    }

    method GetProtocol(p: Proto) returns (found: Option<Obj>)
      requires Valid()
      modifies this`lists, this`heads
      ensures Valid()
      ensures Found(world, plugins, p) == [] ==> found.None?
      ensures Found(world, plugins, p) != [] ==> found == Some(Found(world, plugins, p)[0])
    {
      if Cached(heads, p) {
        LookupIsFresh(heads, p, HeadAnswer(world, plugins));
        found := Lookup(heads, p);
      } else {
        var all := GetProtocols(p);
        found := Head(all);
      }
      TouchKeepsFresh(heads, p, HeadAnswer(world, plugins));
      heads := Touch(heads, p, found);
    }
  }
}
