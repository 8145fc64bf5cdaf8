/**
 Starting and stopping the modules: the order `_get_ordered_modules` puts them in, and
 `lifespan`, which enters them one by one on an exit stack.
 */
module ModuleLifespan {
  import opened Options

  /** How entering a module's lifespan ends; the last is a cancellation, which no handler here takes. */
  datatype EntryFate = Enters | MissingDependency | Fails | Cancelled

  /** How leaving it ends: quietly, raising, or swallowing the error it is told about. */
  datatype ExitFate = Leaves | Raises | Swallows

  /** A registry entry and what its lifespan will do. */
  datatype Module = Module(name: string, declared: Option<int>, instantiated: bool, isModule: bool,
                           entry: EntryFate, leave: ExitFate) {
    function Priority(): int { if declared.Some? then declared.value else 100 }
    /** The lifespans that are entered at all. */
    predicate Live() { instantiated && isModule }
    /** Startup cannot go on past this one. */
    predicate Fatal() { Live() && (entry.Cancelled? || (entry.Fails? && Priority() < 20)) }
  }

  // ---------------------------------------------------------------- the order

  /** Strictly earlier in code point order. */
  predicate NameBefore(a: string, b: string) {
    b != "" && (a == "" || a[0] < b[0] || (a[0] == b[0] && NameBefore(a[1..], b[1..])))
  }

  predicate Before(m: Module, n: Module) {
    m.Priority() < n.Priority() || (m.Priority() == n.Priority() && NameBefore(m.name, n.name))
  }

  function Insert(m: Module, s: seq<Module>): seq<Module> {
    if s == [] || Before(m, s[0]) then [m] + s else [s[0]] + Insert(m, s[1..])
  }

  /** `sorted(..., key=(priority, name))` of the registry in its insertion order. */
  function Order(registry: seq<Module>): seq<Module> {
    if registry == [] then [] else Insert(registry[|registry| - 1], Order(registry[..|registry| - 1]))
  }

  /** A dictionary's entries. */
  predicate IsRegistry(s: seq<Module>) {
    forall i, j :: 0 <= i < j < |s| ==> s[i].name != s[j].name
  }

  predicate StrictlyOrdered(s: seq<Module>) {
    forall i, j :: 0 <= i < j < |s| ==> Before(s[i], s[j])
  }

  lemma {:induction false} NamesCompare(a: string, b: string)
    ensures a != b ==> NameBefore(a, b) || NameBefore(b, a)
    ensures !(NameBefore(a, b) && NameBefore(b, a))
    ensures !NameBefore(a, a)
  {
    if a != "" {
      NamesCompare(a[1..], a[1..]);
    }
    if a != "" && b != "" {
      NamesCompare(a[1..], b[1..]);
      assert a == [a[0]] + a[1..] && b == [b[0]] + b[1..];
    }
  }

  lemma {:induction false} NamesChain(a: string, b: string, c: string)
    requires NameBefore(a, b) && NameBefore(b, c)
    ensures NameBefore(a, c)
  {
    if a != "" && a[0] == b[0] == c[0] {
      NamesChain(a[1..], b[1..], c[1..]);
    }
  }

  lemma BeforeChain(a: Module, b: Module, c: Module)
    requires Before(a, b) && Before(b, c)
    ensures Before(a, c)
  {
    if a.Priority() == b.Priority() == c.Priority() {
      NamesChain(a.name, b.name, c.name);
    }
  }

  lemma {:induction false} InsertKeepsOrder(m: Module, s: seq<Module>)
    requires StrictlyOrdered(s) && forall n :: n in s ==> n.name != m.name
    ensures StrictlyOrdered(Insert(m, s))
    ensures forall n :: n in Insert(m, s) <==> n == m || n in s
    ensures |Insert(m, s)| == |s| + 1
  {
    if s != [] {
      assert s == [s[0]] + s[1..];
      if Before(m, s[0]) {
        forall n | n in s[1..]
          ensures Before(m, n)
        {
          BeforeChain(m, s[0], n);
        }
      } else {
        InsertKeepsOrder(m, s[1..]);
        assert s[0] in s;
        NamesCompare(m.name, s[0].name);
        forall n | n in Insert(m, s[1..])
          ensures Before(s[0], n)
        {
        }
      }
    }
  }

  /** At the first place where they differ, the first name has the smaller character or has ended. */
  ghost predicate DiffersAt(a: string, b: string, k: nat) {
    && k <= |a| && k < |b| && a[..k] == b[..k]
    && (k == |a| || a[k] < b[k])
  }

  lemma {:induction false} NameBeforeIff(a: string, b: string)
    ensures NameBefore(a, b) <==> exists k: nat :: DiffersAt(a, b, k)
  {
    if a != "" && b != "" {
      NameBeforeIff(a[1..], b[1..]);
      assert a == [a[0]] + a[1..] && b == [b[0]] + b[1..];
      if k: nat :| DiffersAt(a, b, k) {
        if k > 0 {
          assert a[0] == a[..k][0] == b[..k][0] == b[0];
          assert a[1..][..k - 1] == a[..k][1..] && b[1..][..k - 1] == b[..k][1..];
          assert DiffersAt(a[1..], b[1..], k - 1);
        }
      }
      if a[0] == b[0] && NameBefore(a[1..], b[1..]) {
        var k: nat :| DiffersAt(a[1..], b[1..], k);
        assert a[..k + 1] == [a[0]] + a[1..][..k] && b[..k + 1] == [b[0]] + b[1..][..k];
        assert DiffersAt(a, b, k + 1);
      }
      if a[0] < b[0] {
        assert DiffersAt(a, b, 0);
      }
    } else if b != "" {
      assert DiffersAt(a, b, 0);
    }
  }

  /**
   In the start order a module with a smaller priority comes first, one that declares none
   counting as 100; among equals the name that comes first in code point order.
   */
  lemma OrderMeans(registry: seq<Module>, i: nat, j: nat)
    requires IsRegistry(registry) && i < j < |Order(registry)|
    ensures var m, n := Order(registry)[i], Order(registry)[j];
            && (m.declared.Some? && n.declared.Some? ==> m.declared.value <= n.declared.value)
            && (m.declared.Some? && n.declared.None? ==> m.declared.value <= 100)
            && (m.declared.None? && n.declared.Some? ==> 100 <= n.declared.value)
            && (m.declared == n.declared ==> exists k: nat :: DiffersAt(m.name, n.name, k))
  {
    OrderIsSorted(registry);
    var m, n := Order(registry)[i], Order(registry)[j];
    assert Before(m, n);
    NameBeforeIff(m.name, n.name);
  }

  /** The start order holds every registered module once, by priority and then by name. */
  lemma {:induction false} OrderIsSorted(registry: seq<Module>)
    requires IsRegistry(registry)
    ensures StrictlyOrdered(Order(registry))
    ensures forall m :: m in Order(registry) <==> m in registry
    ensures |Order(registry)| == |registry|
  {
    if registry != [] {
      var before, last := registry[..|registry| - 1], registry[|registry| - 1];
      OrderIsSorted(before);
      InsertKeepsOrder(last, Order(before));
      assert registry == before + [last];
    }
  }

  lemma {:induction false} OrderedListsAgree(a: seq<Module>, b: seq<Module>)
    requires StrictlyOrdered(a) && StrictlyOrdered(b) && forall m :: m in a <==> m in b
    ensures a == b
  {
    if b != [] {
      assert b[0] in b && b[0] in a;
    }
    if a != [] {
      assert a[0] in a && a[0] in b;
      assert a == [a[0]] + a[1..] && b == [b[0]] + b[1..];
      NotBeforeItself(a[0]);
      NotBeforeItself(b[0]);
      if a[0] != b[0] {
        BeforeChain(a[0], b[0], a[0]);
      }
      assert a[0] !in a[1..] && b[0] !in b[1..];
      forall m
        ensures m in a[1..] <==> m in b[1..]
      {
        assert m in a[1..] <==> m in a && m != a[0];
        assert m in b[1..] <==> m in b && m != b[0];
      }
      OrderedListsAgree(a[1..], b[1..]);
    }
  }

  lemma NotBeforeItself(m: Module)
    ensures !Before(m, m)
  {
    NamesCompare(m.name, m.name);
  }

  /** Discovery order does not matter: the same modules always start in the same order. */
  lemma OrderIgnoresDiscovery(one: seq<Module>, two: seq<Module>)
    requires IsRegistry(one) && IsRegistry(two) && forall m :: m in one <==> m in two
    ensures Order(one) == Order(two)
  {
    OrderIsSorted(one);
    OrderIsSorted(two);
    OrderedListsAgree(Order(one), Order(two));
  }

  // ---------------------------------------------------------------- what a lifespan does

  datatype Event = Entered(name: string) | Body | Waited | Exited(name: string)

  /** How the application, and then the wait for background tasks, end. */
  datatype BodyFate = BodyFate(raises: bool, waitRaises: bool)

  /** The modules that get in: those whose lifespan enters, up to the first that stops startup. */
  function Started(ms: seq<Module>): seq<Module> {
    if ms == [] || ms[0].Fatal() then []
    else (if ms[0].Live() && ms[0].entry.Enters? then [ms[0]] else []) + Started(ms[1..])
  }

  predicate Aborts(ms: seq<Module>) { exists m :: m in ms && m.Fatal() }

  /**
   Startup fails exactly when some module that was instantiated and is a module is cancelled
   on entry, or declares a priority under 20 and fails there for any reason but a missing dependency.
   */
  lemma AbortsIff(ms: seq<Module>)
    ensures Aborts(ms) <==>
            exists i :: 0 <= i < |ms| && ms[i].instantiated && ms[i].isModule &&
                        (ms[i].entry == Cancelled || (ms[i].entry == Fails && ms[i].declared.Some? && ms[i].declared.value < 20))
  {
    if Aborts(ms) {
      var m :| m in ms && m.Fatal();
      var i :| 0 <= i < |ms| && ms[i] == m;
    }
    if i :| 0 <= i < |ms| && ms[i].Fatal() {
      assert ms[i] in ms;
    }
  }

  function Entries(ms: seq<Module>): seq<Event> { seq(|ms|, i requires 0 <= i < |ms| => Entered(ms[i].name)) }

  /** Left in reverse. */
  function Exits(ms: seq<Module>): seq<Event> {
    seq(|ms|, i requires 0 <= i < |ms| => Exited(ms[|ms| - 1 - i].name))
  }

  /** Whether an error is on its way out once these have been left, last first. */
  function ErrorAfter(ms: seq<Module>, error: bool): bool {
    if ms == [] then error
    else
      var last := ms[|ms| - 1];
      ErrorAfter(ms[..|ms| - 1], if last.leave.Raises? then true else if last.leave.Swallows? then false else error)
  }

  /** Some exit raised, or there was an error to begin with, and no exit after that (of an earlier module) swallowed it. */
  ghost predicate Escapes(ms: seq<Module>, error: bool) {
    || (error && Unswallowed(ms, |ms|))
    || (exists i :: 0 <= i < |ms| && ms[i].leave == Raises && Unswallowed(ms, i))
  }

  ghost predicate Unswallowed(ms: seq<Module>, i: nat)
    requires i <= |ms|
  {
    forall j :: 0 <= j < i ==> ms[j].leave != Swallows
  }

  lemma EscapesStep(before: seq<Module>, last: Module, error: bool)
    ensures Escapes(before + [last], error) <==>
            Escapes(before, last.leave.Raises? || (!last.leave.Swallows? && error))
  {
    var all := before + [last];
    assert all[|before|] == last && forall j :: 0 <= j < |before| ==> all[j] == before[j];
    forall i | 0 <= i <= |before|
      ensures Unswallowed(all, i) <==> Unswallowed(before, i)
    {
      assert forall j :: 0 <= j < i ==> all[j] == before[j];
    }
    if i :| 0 <= i < |all| && all[i].leave == Raises && Unswallowed(all, i) {
      assert i < |before| ==> before[i].leave == Raises && Unswallowed(before, i);
    }
    if i :| 0 <= i < |before| && before[i].leave == Raises && Unswallowed(before, i) {
      assert all[i].leave == Raises && Unswallowed(all, i);
    }
    if last.leave.Raises? && Unswallowed(before, |before|) {
      assert all[|before|].leave == Raises && Unswallowed(all, |before|);
    }
    assert Unswallowed(all, |all|) <==> Unswallowed(before, |before|) && last.leave != Swallows;
  }

  /** Exactly then an error comes out. */
  lemma {:induction false} ErrorAfterIff(ms: seq<Module>, error: bool)
    ensures ErrorAfter(ms, error) <==> Escapes(ms, error)
  {
    if ms != [] {
      var before, last := ms[..|ms| - 1], ms[|ms| - 1];
      assert ms == before + [last];
      ErrorAfterIff(before, last.leave.Raises? || (!last.leave.Swallows? && error));
      EscapesStep(before, last, error);
    }
  }

  lemma StartedUnfolds(m: Module, rest: seq<Module>)
    ensures Started([m] + rest) ==
            if m.Fatal() then [] else (if m.Live() && m.entry.Enters? then [m] else []) + Started(rest)
    ensures Aborts([m] + rest) <==> m.Fatal() || Aborts(rest)
  {
    var all := [m] + rest;
    assert all[0] == m && all[1..] == rest;
    if x :| x in rest && x.Fatal() {
      assert x in all;
    }
    assert m in all;
  }

  lemma {:induction false} StartedSplits(a: seq<Module>, m: Module)
    requires !Aborts(a)
    ensures Started(a + [m]) == Started(a) + if m.Live() && m.entry.Enters? then [m] else []
    ensures !m.Fatal() ==> !Aborts(a + [m])
  {
    if a == [] {
      assert a + [m] == [m] + [];
      StartedUnfolds(m, []);
    } else {
      assert a == [a[0]] + a[1..];
      assert a + [m] == [a[0]] + (a[1..] + [m]);
      StartedUnfolds(a[0], a[1..]);
      StartedUnfolds(a[0], a[1..] + [m]);
      StartedSplits(a[1..], m);
    }
  }

  lemma {:induction false} StartedStops(a: seq<Module>, m: Module, b: seq<Module>)
    requires !Aborts(a) && m.Fatal()
    ensures Started(a + ([m] + b)) == Started(a)
    ensures Aborts(a + ([m] + b))
  {
    if a == [] {
      assert a + ([m] + b) == [m] + b;
      StartedUnfolds(m, b);
    } else {
      assert a == [a[0]] + a[1..];
      assert a + ([m] + b) == [a[0]] + (a[1..] + ([m] + b));
      StartedUnfolds(a[0], a[1..]);
      StartedUnfolds(a[0], a[1..] + ([m] + b));
      StartedStops(a[1..], m, b);
    }
  }

  /** The exit stack, last in first out; an exit that raises does not keep the others from running. */
  method Unwind(stack: seq<Module>, raised: bool) returns (log: seq<Event>, error: bool)
    ensures log == Exits(stack)
    ensures error == ErrorAfter(stack, raised)
  {
    log, error := [], raised;
    var left := stack;
    while left != []
      invariant |left| <= |stack| && left == stack[..|left|]
      invariant log == Exits(stack)[..|stack| - |left|]
      invariant ErrorAfter(left, error) == ErrorAfter(stack, raised)
    {
      var last := left[|left| - 1];
      left := left[..|left| - 1];
      log := log + [Exited(last.name)];
      match last.leave {
        case Leaves =>
        case Raises => error := true;
        case Swallows => error := false;
      }
    }
  }

  /** What happens between startup and shutdown: with no modules at all nothing is waited for. */
  function Middle(ms: seq<Module>, body: BodyFate): seq<Event> {
    if ms == [] || body.raises then [Body] else [Body, Waited]
  }

  /**
   `lifespan` from startup to shutdown.  `ran` says the application ran; `error` that an
   error comes out, which is also what a start that never reached the application ends in.
   */
  method Lifespan(ms: seq<Module>, body: BodyFate) returns (log: seq<Event>, ran: bool, error: bool)
    ensures ran <==> !Aborts(ms)
    ensures log == Entries(Started(ms)) + (if ran then Middle(ms, body) else []) + Exits(Started(ms))
    ensures error == if ran then ErrorAfter(Started(ms), body.raises || (body.waitRaises && ms != [])) else true
    // background work is waited for exactly when the application ended by itself and there are modules at all
    ensures (Body in log <==> ran) && (Waited in log <==> ran && ms != [] && !body.raises)
  {
    if ms == [] {
      return [Body], true, body.raises;
    }
    var stack;
    log, ran, stack := Startup(ms);
    if ran {
      log := log + if body.raises then [Body] else [Body, Waited];
    }
    var exits;
    exits, error := Unwind(stack, !ran || body.raises || body.waitRaises);
    log := log + exits;
    error := error || !ran;
  }

  /** The loop that enters the lifespans; `stack` is what has to be left again. */
  method Startup(ms: seq<Module>) returns (log: seq<Event>, ran: bool, stack: seq<Module>)
    ensures ran <==> !Aborts(ms)
    ensures stack == Started(ms) && log == Entries(stack)
  {
    stack, log, ran := [], [], true;
    var i := 0;
    while i < |ms| && ran
      invariant 0 <= i <= |ms|
      invariant ran ==> !Aborts(ms[..i]) && stack == Started(ms[..i])
      invariant !ran ==> Aborts(ms) && stack == Started(ms)
      invariant log == Entries(stack)
    {
      var m := ms[i];
      PrefixGrows(ms, i);
      if m.instantiated && m.isModule {
        match m.entry {
          case Enters =>
            stack, log := stack + [m], log + [Entered(m.name)];
          case MissingDependency =>
          case Fails =>
            if m.Priority() < 20 {
              ran := false;
            }
          case Cancelled =>
            ran := false;
        }
      }
      i := i + 1;
    }
    assert ms[..|ms|] == ms;
  }

  /** One more module: it stops startup where it is, or it adds itself, or it changes nothing. */
  lemma PrefixGrows(ms: seq<Module>, i: nat)
    requires i < |ms| && !Aborts(ms[..i])
    ensures ms[i].Fatal() ==> Aborts(ms) && Started(ms) == Started(ms[..i])
    ensures !ms[i].Fatal() ==> !Aborts(ms[..i + 1])
    ensures !ms[i].Fatal() ==>
              Started(ms[..i + 1]) == Started(ms[..i]) + if ms[i].Live() && ms[i].entry.Enters? then [ms[i]] else []
  {
    var m, before, after := ms[i], ms[..i], ms[i + 1..];
    SplitAt(ms, i);
    if m.Fatal() {
      StartedStops(before, m, after);
    } else {
      StartedSplits(before, m);
    }
  }

  lemma SplitAt<T>(s: seq<T>, i: nat)
    requires i < |s|
    ensures s == s[..i] + ([s[i]] + s[i + 1..])
    ensures s[..i + 1] == s[..i] + [s[i]]
  {
  }

  // ---------------------------------------------------------------- together

  /** Where an event stands in a log, counting from the front. */
  ghost predicate At(log: seq<Event>, e: Event, i: nat) { i < |log| && log[i] == e }

  lemma {:induction false} StartedIsOrdered(ms: seq<Module>)
    requires StrictlyOrdered(ms)
    ensures StrictlyOrdered(Started(ms))
    ensures forall m :: m in Started(ms) ==> m in ms
  {
    if ms != [] {
      StartedIsOrdered(ms[1..]);
      assert ms == [ms[0]] + ms[1..];
      forall n | n in Started(ms[1..])
        ensures Before(ms[0], n)
      {
        assert n in ms[1..];
      }
    }
  }

  /** A module is live and enters, and none at or before it in the order is fatal: exactly then it starts. */
  lemma {:induction false} StartsIff(ms: seq<Module>, k: nat)
    requires StrictlyOrdered(ms) && k < |ms|
    ensures ms[k] in Started(ms) <==>
              ms[k].Live() && ms[k].entry.Enters? && forall j :: 0 <= j <= k ==> !ms[j].Fatal()
  {
    NotBeforeItself(ms[k]);
    StartedIsOrdered(ms[1..]);
    if !ms[0].Fatal() {
      if k == 0 {
        assert ms[0] !in ms[1..];
      } else {
        StartsIff(ms[1..], k - 1);
        assert ms[k] != ms[0];
      }
    }
  }

  /**
   Whatever happens, the lifespans nest: of two modules that started, the one with the
   smaller (priority, name) entered first and leaves last.
   */
  lemma LifespansNest(registry: seq<Module>, middle: seq<Event>, i: nat, j: nat)
    requires IsRegistry(registry)
    requires var started := Started(Order(registry)); i < |started| && j < |started| && Before(started[i], started[j])
    ensures var started := Started(Order(registry));
            var log := Entries(started) + middle + Exits(started);
            && i < j
            && At(log, Entered(started[i].name), i) && At(log, Entered(started[j].name), j)
            && At(log, Exited(started[j].name), |log| - 1 - j) && At(log, Exited(started[i].name), |log| - 1 - i)
  {
    OrderIsSorted(registry);
    StartedIsOrdered(Order(registry));
    var started := Started(Order(registry));
    NamesCompare(started[i].name, started[j].name);
    NamesCompare(started[i].name, started[i].name);
  }
}
