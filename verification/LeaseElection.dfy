/**
 Leader election over the `configs.leader_lease` table.

 Any number of pods contend for one lease row with a compare-and-set statement, run
 leader ticks under a wall-clock budget, renew, resign, release and crash in any
 interleaving.  The main result says exactly which timing settings keep two pods from
 ever being inside a tick at the same moment.
 */
module LeaseElection {
  import opened Options

  type Owner = string

  /** One row of `configs.leader_lease`. */
  datatype Lease = Lease(owner: Owner, epoch: int, acquiredAt: real, renewedAt: real, expiresAt: real)

  // ---------------------------------------------------------------- the lease row

  /** The upsert: inserts, takes over an expired row, or renews an own row; otherwise no row comes back. */
  function Cas(row: Option<Lease>, me: Owner, now: real, ttl: real): Option<Lease> {
    match row
    case None => Some(Lease(me, 1, now, now, now + ttl))
    case Some(l) =>
      if l.expiresAt < now || l.owner == me then
        Some(Lease(me,
                   if l.owner == me then l.epoch else l.epoch + 1,
                   if l.owner == me then l.acquiredAt else now,
                   now,
                   now + ttl))
      else None
  }

  /** One round trip: a non-locking look at the row first, then the upsert unless a live foreign owner was seen. */
  function RoundTrip(row: Option<Lease>, me: Owner, now: real, ttl: real): Option<Lease> {
    if row.Some? && row.value.owner != me && row.value.expiresAt > now then None
    else Cas(row, me, now, ttl)
  }

  /** The early look saves a lock wait and nothing else: it never changes who wins. */
  lemma PrecheckIsTransparent(row: Option<Lease>, me: Owner, now: real, ttl: real)
    ensures RoundTrip(row, me, now, ttl) == Cas(row, me, now, ttl)
    ensures RoundTrip(row, me, now, ttl).Some? <==>
            row.None? || row.value.owner == me || row.value.expiresAt < now
  {
  }

  /** The best-effort release: expires the row, but only while this process is still its owner. */
  function Released(row: Option<Lease>, me: Owner, now: real): Option<Lease> {
    if row.Some? && row.value.owner == me then Some(row.value.(expiresAt := now)) else row
  }

  // ---------------------------------------------------------------- the tick budget

  function Min(a: real, b: real): real { if a <= b then a else b }

  /** The timeout `run_leader_loop` puts around the leader work; `None` is unbounded. */
  function OuterTimeout(cadence: real, tickTimeout: Option<real>): Option<real> {
    if tickTimeout.Some? then tickTimeout else if cadence > 0.0 then Some(cadence) else None
  }

  /** The clamp `on_leader_tick` and `on_tick` put around the tick itself. */
  function InnerTimeout(cadence: real, tickTimeout: Option<real>, ttl: real, skew: real): real {
    var configured := if tickTimeout.Some? then tickTimeout.value else cadence;
    var cap := ttl - skew;
    if configured > 0.0 then Min(configured, cap) else cap
  }

  /** What actually bounds a tick in the per-tick regime: the tighter of the two timeouts. */
  function PerTickBudget(cadence: real, tickTimeout: Option<real>, ttl: real, skew: real): real {
    var inner := InnerTimeout(cadence, tickTimeout, ttl, skew);
    match OuterTimeout(cadence, tickTimeout)
    case None => inner
    case Some(outer) => Min(outer, inner)
  }

  /** No setting of a service's own cadence or timeout can lift either regime above the cap. */
  lemma BudgetNeverAboveCap(cadence: real, tickTimeout: Option<real>, ttl: real, skew: real)
    ensures PerTickBudget(cadence, tickTimeout, ttl, skew) <= InnerTimeout(cadence, tickTimeout, ttl, skew) <= ttl - skew
  {
  }

  /**
   A per-tick service ever gets to run its tick exactly when the cap is positive and an
   explicit `tick_timeout`, if any, is positive: `tick_timeout = 0`, described as
   "disable the timeout", cancels every tick at once instead.
   */
  lemma PerTickServiceTicksIff(cadence: real, tickTimeout: Option<real>, ttl: real, skew: real)
    ensures PerTickBudget(cadence, tickTimeout, ttl, skew) > 0.0 <==>
            ttl > skew && (tickTimeout.Some? ==> tickTimeout.value > 0.0)
  {
  }

  // ---------------------------------------------------------------- the fleet

  /**
   `ttl`: lease lifetime; `budget`: bound on one tick; `startGap`: longest time from a
   pod's last successful compare-and-set to the start of a tick relying on it.
   */
  datatype Timing = Timing(ttl: real, budget: real, startGap: real) {
    predicate Valid() { ttl > 0.0 && startGap >= 0.0 }
  }

  /**
   Where one pod is in its loop.  `lost` is the heartbeat's lost event.  `Resigning` is
   the stretch between the end of the leader work and the release statement.
   */
  datatype Pc =
    | Follower
    | Leader(casAt: real, lost: bool)
    | Ticking(casAt: real, startedAt: real, lost: bool)
    | Resigning(casAt: real)
    | Dead

  datatype Fleet = Fleet(now: real, row: Option<Lease>, pods: map<Owner, Pc>)

  datatype Event =
    | Elapse(dt: real)
    | Acquire(pod: Owner)                // won the round trip at context entry
    | Renew(pod: Owner)                  // heartbeat round trip won
    | RenewFails(pod: Owner)             // heartbeat round trip lost, refused or errored
    | StartTick(pod: Owner)
    | EndTick(pod: Owner, resign: bool)  // returned, raised, timed out or was cancelled
    | Resign(pod: Owner)                 // probe failure, lost lease, shutdown
    | Release(pod: Owner, ok: bool)      // best effort: `ok` says whether the statement landed
    | Crash(pod: Owner)

  function Init(pods: set<Owner>): Fleet {
    Fleet(0.0, None, map p | p in pods :: Follower)
  }

  /** `wait_for` fires on time: the clock cannot pass the deadline of a running tick. */
  ghost predicate DeadlinesAllow(t: Timing, s: Fleet, dt: real) {
    forall p :: p in s.pods && s.pods[p].Ticking? ==> s.now + dt <= s.pods[p].startedAt + t.budget
  }

  ghost predicate Enabled(t: Timing, s: Fleet, e: Event) {
    match e
    case Elapse(dt) => dt >= 0.0 && DeadlinesAllow(t, s, dt)
    case Acquire(p) => p in s.pods && s.pods[p].Follower? && RoundTrip(s.row, p, s.now, t.ttl).Some?
    case Renew(p) =>
      && p in s.pods && (s.pods[p].Leader? || s.pods[p].Ticking?) && !s.pods[p].lost
      && RoundTrip(s.row, p, s.now, t.ttl).Some?
    case RenewFails(p) => p in s.pods && (s.pods[p].Leader? || s.pods[p].Ticking?)
    case StartTick(p) =>
      && p in s.pods && s.pods[p].Leader? && !s.pods[p].lost
      && t.budget > 0.0 && s.now - s.pods[p].casAt <= t.startGap
    case EndTick(p, _) => p in s.pods && s.pods[p].Ticking?
    case Resign(p) => p in s.pods && s.pods[p].Leader?
    case Release(p, _) => p in s.pods && s.pods[p].Resigning?
    case Crash(p) => p in s.pods
  }

  ghost function Apply(t: Timing, s: Fleet, e: Event): Fleet
    requires Enabled(t, s, e)
  {
    match e
    case Elapse(dt) => s.(now := s.now + dt)
    case Acquire(p) =>
      s.(row := RoundTrip(s.row, p, s.now, t.ttl), pods := s.pods[p := Leader(s.now, false)])
    case Renew(p) =>
      s.(row := RoundTrip(s.row, p, s.now, t.ttl), pods := s.pods[p := s.pods[p].(casAt := s.now)])
    case RenewFails(p) => s.(pods := s.pods[p := s.pods[p].(lost := true)])
    case StartTick(p) => s.(pods := s.pods[p := Ticking(s.pods[p].casAt, s.now, false)])
    case EndTick(p, resign) =>
      s.(pods := s.pods[p := if resign then Resigning(s.pods[p].casAt)
                             else Leader(s.pods[p].casAt, s.pods[p].lost)])
    case Resign(p) => s.(pods := s.pods[p := Resigning(s.pods[p].casAt)])
    case Release(p, ok) =>
      s.(row := if ok then Released(s.row, p, s.now) else s.row, pods := s.pods[p := Follower])
    case Crash(p) => s.(pods := s.pods[p := Dead])
  }

  /** A run: every event was enabled where it happened. */
  ghost predicate IsRun(t: Timing, s: Fleet, es: seq<Event>)
    decreases |es|, 0
  {
    es == [] || (IsRun(t, s, es[..|es| - 1]) && Enabled(t, After(t, s, es[..|es| - 1]), es[|es| - 1]))
  }

  ghost function After(t: Timing, s: Fleet, es: seq<Event>): Fleet
    requires IsRun(t, s, es)
    decreases |es|, 1
  {
    if es == [] then s else Apply(t, After(t, s, es[..|es| - 1]), es[|es| - 1])
  }

  ghost predicate AtMostOneTicking(s: Fleet) {
    forall p, q :: p in s.pods && q in s.pods && s.pods[p].Ticking? && s.pods[q].Ticking? ==> p == q
  }

  // ---------------------------------------------------------------- what every step keeps

  ghost predicate Tenured(pc: Pc) { pc.Leader? || pc.Ticking? || pc.Resigning? }

  /** A pod holding a tenure either still owns the row up to `casAt + ttl`, or that moment has passed. */
  ghost predicate PodInv(t: Timing, s: Fleet, p: Owner)
    requires p in s.pods
  {
    var pc := s.pods[p];
    && (Tenured(pc) ==>
          && pc.casAt <= s.now
          && s.row.Some?
          && (s.row.value.owner == p ==> s.row.value.expiresAt == pc.casAt + t.ttl && s.row.value.renewedAt == pc.casAt)
          && (s.row.value.owner != p ==> pc.casAt + t.ttl < s.now))
    && (pc.Ticking? ==>
          && pc.startedAt <= s.now <= pc.startedAt + t.budget
          && pc.startedAt <= pc.casAt + t.startGap)
  }

  ghost predicate Inv(t: Timing, s: Fleet) {
    && (forall p :: p in s.pods ==> PodInv(t, s, p))
    && (s.row.Some? ==> s.row.value.expiresAt <= s.now + t.ttl && s.row.value.acquiredAt <= s.row.value.renewedAt <= s.now)
  }

  lemma StepKeepsInv(t: Timing, s: Fleet, e: Event)
    requires t.Valid() && Inv(t, s) && Enabled(t, s, e)
    ensures Inv(t, Apply(t, s, e))
  {
    var s' := Apply(t, s, e);
    forall p | p in s'.pods
      ensures PodInv(t, s', p)
    {
      assert PodInv(t, s, p);
      if e.Acquire? || e.Renew? {
        assert s'.row.value.owner == e.pod;
      }
    }
  }

  lemma {:induction false} RunKeepsInv(t: Timing, pods: set<Owner>, es: seq<Event>)
    requires t.Valid() && IsRun(t, Init(pods), es)
    ensures Inv(t, After(t, Init(pods), es))
  {
    if es != [] {
      RunKeepsInv(t, pods, es[..|es| - 1]);
      StepKeepsInv(t, After(t, Init(pods), es[..|es| - 1]), es[|es| - 1]);
    }
  }

  // ---------------------------------------------------------------- mutual exclusion

  /** The settings under which leadership is exclusive: no tick ever runs, or gap plus budget fits in the lease. */
  predicate Exclusive(t: Timing) {
    t.budget <= 0.0 || t.startGap + t.budget <= t.ttl
  }

  lemma ExclusiveIsSafe(t: Timing, pods: set<Owner>, es: seq<Event>)
    requires t.Valid() && Exclusive(t) && IsRun(t, Init(pods), es)
    ensures AtMostOneTicking(After(t, Init(pods), es))
  {
    RunKeepsInv(t, pods, es);
    var s := After(t, Init(pods), es);
    forall p | p in s.pods && s.pods[p].Ticking?
      ensures s.row.Some? && s.row.value.owner == p
    {
      assert PodInv(t, s, p);
      if t.budget <= 0.0 {
        NoBudgetNoTick(t, pods, es, p);
      }
    }
  }

  lemma {:induction false} NoBudgetNoTick(t: Timing, pods: set<Owner>, es: seq<Event>, p: Owner)
    requires t.budget <= 0.0 && IsRun(t, Init(pods), es)
    requires p in After(t, Init(pods), es).pods
    ensures !After(t, Init(pods), es).pods[p].Ticking?
  {
    if es != [] {
      NoBudgetNoTick(t, pods, es[..|es| - 1], p);
    }
  }

  /** A pod that waited as long as it may before its tick. */
  lemma TickStarted(t: Timing, a: Owner, b: Owner) returns (es: seq<Event>, s: Fleet)
    requires t.Valid() && t.budget > 0.0 && a != b
    ensures es == [Acquire(a), Elapse(t.startGap), StartTick(a)]
    ensures IsRun(t, Init({a, b}), es) && After(t, Init({a, b}), es) == s
    ensures s.now == t.startGap
    ensures s.pods == map[a := Ticking(0.0, t.startGap, false), b := Follower]
    ensures s.row == Some(Lease(a, 1, 0.0, 0.0, t.ttl))
  {
    var s0 := Init({a, b});
    s, es := s0, [];
    es, s := Extend(t, s0, es, s, Acquire(a));
    es, s := Extend(t, s0, es, s, Elapse(t.startGap));
    es, s := Extend(t, s0, es, s, StartTick(a));
  }

  /** Outside those settings the overlap is real: a stale leader still ticks after a successor has taken over. */
  lemma UnsafeRun(t: Timing, a: Owner, b: Owner) returns (es: seq<Event>)
    requires t.Valid() && !Exclusive(t) && a != b
    ensures IsRun(t, Init({a, b}), es)
    ensures !AtMostOneTicking(After(t, Init({a, b}), es))
  {
    var s0 := Init({a, b});
    var s;
    es, s := TickStarted(t, a, b);
    es, s := Extend(t, s0, es, s, Elapse(t.budget));
    es, s := Extend(t, s0, es, s, Acquire(b));
    es, s := Extend(t, s0, es, s, StartTick(b));
    assert s.pods[a].Ticking? && s.pods[b].Ticking?;
  }

  /** Appends one enabled event to a run. */
  lemma Extend(t: Timing, s0: Fleet, es: seq<Event>, s: Fleet, e: Event) returns (es': seq<Event>, s': Fleet)
    requires IsRun(t, s0, es) && After(t, s0, es) == s && Enabled(t, s, e)
    ensures es' == es + [e] && IsRun(t, s0, es') && After(t, s0, es') == s' == Apply(t, s, e)
  {
    es' := es + [e];
    assert es'[..|es'| - 1] == es;
    s' := Apply(t, s, e);
  }

  ghost predicate NeverTwoLeaders(t: Timing) {
    forall pods: set<Owner>, es: seq<Event> :: IsRun(t, Init(pods), es) ==> AtMostOneTicking(After(t, Init(pods), es))
  }

  /** In every interleaving of any number of pods no two ticks overlap, if and only if the settings are exclusive. */
  lemma MutualExclusionIff(t: Timing)
    requires t.Valid()
    ensures NeverTwoLeaders(t) <==> Exclusive(t)
  {
    if Exclusive(t) {
      forall pods: set<Owner>, es: seq<Event> | IsRun(t, Init(pods), es)
        ensures AtMostOneTicking(After(t, Init(pods), es))
      {
        ExclusiveIsSafe(t, pods, es);
      }
    } else {
      var es := UnsafeRun(t, "a", "b");
    }
  }

  /**
   The per-tick regime, for every cadence and timeout a service may choose and every start
   delay: exclusive exactly when no tick ever runs, when the delay is within the skew margin,
   or when the service's own timeout (its cadence, without one) ends in time by itself.
   */
  lemma PerTickExclusiveIff(cadence: real, tickTimeout: Option<real>, ttl: real, skew: real, startGap: real)
    requires ttl > skew >= 0.0 && startGap >= 0.0
    ensures NeverTwoLeaders(Timing(ttl, PerTickBudget(cadence, tickTimeout, ttl, skew), startGap)) <==>
            || startGap <= skew
            || (tickTimeout.Some? && (tickTimeout.value <= 0.0 || startGap + tickTimeout.value <= ttl))
            || (tickTimeout.None? && cadence > 0.0 && startGap + cadence <= ttl)
  {
    MutualExclusionIff(Timing(ttl, PerTickBudget(cadence, tickTimeout, ttl, skew), startGap));
  }

  /**
   The heartbeat regime applies the same clamp, but a tick may start any time before the
   next renewal has come back, and a lost lease does not cancel it.  Here no timeout stops
   the ticks altogether: one that is not positive falls back to the clamp.
   */
  lemma HeartbeatExclusiveIff(cadence: real, tickTimeout: Option<real>, ttl: real, skew: real, startGap: real)
    requires ttl > skew >= 0.0 && startGap >= 0.0
    ensures NeverTwoLeaders(Timing(ttl, InnerTimeout(cadence, tickTimeout, ttl, skew), startGap)) <==>
            || startGap <= skew
            || (tickTimeout.Some? && tickTimeout.value > 0.0 && startGap + tickTimeout.value <= ttl)
            || (tickTimeout.None? && cadence > 0.0 && startGap + cadence <= ttl)
  {
    MutualExclusionIff(Timing(ttl, InnerTimeout(cadence, tickTimeout, ttl, skew), startGap));
  }

  /**
   With the shipped settings (300 s lease, 5 s margin, a renewal sent 10 s after the one
   before and taking up to `roundTrip`) that leaves a range of cadences and of timeouts.
   The maintenance supervisor, a heartbeat service with a 60 s cadence and a 1860 s timeout,
   is outside it.
   */
  lemma ShippedHeartbeatExclusiveIff(cadence: real, timeout: real, roundTrip: real)
    requires roundTrip >= 0.0
    ensures NeverTwoLeaders(Timing(300.0, InnerTimeout(cadence, None, 300.0, 5.0), 10.0 + roundTrip)) <==>
            (0.0 < cadence <= 290.0 - roundTrip)
    ensures NeverTwoLeaders(Timing(300.0, InnerTimeout(cadence, Some(timeout), 300.0, 5.0), 10.0 + roundTrip)) <==>
            (0.0 < timeout <= 290.0 - roundTrip)
    ensures !NeverTwoLeaders(Timing(300.0, InnerTimeout(60.0, Some(1860.0), 300.0, 5.0), 10.0 + roundTrip))
  {
    HeartbeatExclusiveIff(cadence, None, 300.0, 5.0, 10.0 + roundTrip);
    HeartbeatExclusiveIff(cadence, Some(timeout), 300.0, 5.0, 10.0 + roundTrip);
    HeartbeatExclusiveIff(60.0, Some(1860.0), 300.0, 5.0, 10.0 + roundTrip);
  }

  /** A release that lands frees the row for every other pod as soon as any time has passed; one that does not changes nothing. */
  lemma ReleaseFrees(t: Timing, s: Fleet, p: Owner, q: Owner, dt: real)
    requires t.Valid() && Enabled(t, s, Release(p, true)) && s.row.Some? && s.row.value.owner == p && q != p && dt > 0.0
    ensures RoundTrip(Apply(t, s, Release(p, true)).row, q, s.now + dt, t.ttl).Some?
    ensures Apply(t, s, Release(p, false)).row == s.row
  {
  }

  /** The heartbeat's overlap: a first tick at once, a renewal, a second tick just before the next renewal fails. */
  function HeartbeatRun(t: Timing, a: Owner, b: Owner): seq<Event> {
    [Acquire(a), StartTick(a), EndTick(a, false), Elapse(t.startGap), Renew(a), Elapse(t.startGap),
     StartTick(a), RenewFails(a), Elapse(t.budget), Acquire(b), StartTick(b)]
  }

  lemma HeartbeatFirstTick(t: Timing, a: Owner, b: Owner) returns (es: seq<Event>, s: Fleet)
    requires t.Valid() && t.budget > 0.0 && a != b
    ensures es == HeartbeatRun(t, a, b)[..2]
    ensures IsRun(t, Init({a, b}), es) && After(t, Init({a, b}), es) == s
    ensures s == Fleet(0.0, Some(Lease(a, 1, 0.0, 0.0, t.ttl)), map[a := Ticking(0.0, 0.0, false), b := Follower])
  {
    var s0 := Init({a, b});
    s, es := s0, [];
    es, s := Extend(t, s0, es, s, Acquire(a));
    es, s := Extend(t, s0, es, s, StartTick(a));
  }

  lemma HeartbeatFirstTickDone(t: Timing, a: Owner, b: Owner) returns (es: seq<Event>, s: Fleet)
    requires t.Valid() && t.budget > 0.0 && a != b
    ensures es == HeartbeatRun(t, a, b)[..4]
    ensures IsRun(t, Init({a, b}), es) && After(t, Init({a, b}), es) == s
    ensures s == Fleet(t.startGap, Some(Lease(a, 1, 0.0, 0.0, t.ttl)), map[a := Leader(0.0, false), b := Follower])
  {
    var s0 := Init({a, b});
    es, s := HeartbeatFirstTick(t, a, b);
    es, s := Extend(t, s0, es, s, EndTick(a, false));
    es, s := Extend(t, s0, es, s, Elapse(t.startGap));
  }

  lemma HeartbeatRenewed(t: Timing, a: Owner, b: Owner) returns (es: seq<Event>, s: Fleet)
    requires t.Valid() && t.budget > 0.0 && a != b
    ensures es == HeartbeatRun(t, a, b)[..5]
    ensures IsRun(t, Init({a, b}), es) && After(t, Init({a, b}), es) == s
    ensures s == Fleet(t.startGap, Some(Lease(a, 1, 0.0, t.startGap, t.startGap + t.ttl)),
                       map[a := Leader(t.startGap, false), b := Follower])
  {
    es, s := HeartbeatFirstTickDone(t, a, b);
    es, s := Extend(t, Init({a, b}), es, s, Renew(a));
  }

  lemma HeartbeatTicksAgain(t: Timing, a: Owner, b: Owner) returns (es: seq<Event>, s: Fleet)
    requires t.Valid() && t.budget > 0.0 && a != b
    ensures es == HeartbeatRun(t, a, b)[..7]
    ensures IsRun(t, Init({a, b}), es) && After(t, Init({a, b}), es) == s
    ensures s == Fleet(t.startGap + t.startGap, Some(Lease(a, 1, 0.0, t.startGap, t.startGap + t.ttl)),
                       map[a := Ticking(t.startGap, t.startGap + t.startGap, false), b := Follower])
  {
    var s0 := Init({a, b});
    es, s := HeartbeatRenewed(t, a, b);
    es, s := Extend(t, s0, es, s, Elapse(t.startGap));
    es, s := Extend(t, s0, es, s, StartTick(a));
  }

  lemma HeartbeatLost(t: Timing, a: Owner, b: Owner) returns (es: seq<Event>, s: Fleet)
    requires t.Valid() && t.budget > 0.0 && a != b
    ensures es == HeartbeatRun(t, a, b)[..9]
    ensures IsRun(t, Init({a, b}), es) && After(t, Init({a, b}), es) == s
    ensures s == Fleet(t.startGap + t.startGap + t.budget, Some(Lease(a, 1, 0.0, t.startGap, t.startGap + t.ttl)),
                       map[a := Ticking(t.startGap, t.startGap + t.startGap, true), b := Follower])
  {
    var s0 := Init({a, b});
    es, s := HeartbeatTicksAgain(t, a, b);
    es, s := Extend(t, s0, es, s, RenewFails(a));
    es, s := Extend(t, s0, es, s, Elapse(t.budget));
  }

  /** Outside the exclusive settings it is a run, and ends with two pods in a tick. */
  lemma HeartbeatOverlap(t: Timing, a: Owner, b: Owner)
    requires t.Valid() && !Exclusive(t) && a != b
    ensures IsRun(t, Init({a, b}), HeartbeatRun(t, a, b))
    ensures !AtMostOneTicking(After(t, Init({a, b}), HeartbeatRun(t, a, b)))
  {
    var s0 := Init({a, b});
    var es, s := HeartbeatLost(t, a, b);
    es, s := Extend(t, s0, es, s, Acquire(b));
    es, s := Extend(t, s0, es, s, StartTick(b));
    assert es == HeartbeatRun(t, a, b);
    assert s.pods[a].Ticking? && s.pods[b].Ticking?;
  }

  /** However bad the settings, a tick that overlaps another outlives its own lease by at most this much. */
  lemma OverlapBound(t: Timing, pods: set<Owner>, es: seq<Event>, p: Owner, q: Owner)
    requires t.Valid() && IsRun(t, Init(pods), es) && p != q
    requires var s := After(t, Init(pods), es);
             p in s.pods && q in s.pods && s.pods[p].Ticking? && s.pods[q].Ticking?
    ensures var s := After(t, Init(pods), es);
            exists stale :: stale in {p, q} && s.row.Some? && s.row.value.owner != stale &&
                            0.0 < s.now - (s.pods[stale].casAt + t.ttl) <= t.startGap + t.budget - t.ttl
  {
    RunKeepsInv(t, pods, es);
    var s := After(t, Init(pods), es);
    assert PodInv(t, s, p) && PodInv(t, s, q);
    var stale := if s.row.value.owner == p then q else p;
    assert stale in {p, q};
  }

  // ---------------------------------------------------------------- fencing and failover

  /** The epoch is a fencing token: it never goes back, and one epoch names one owner and one `acquired_at`. */
  lemma {:induction false} EpochFences(t: Timing, pods: set<Owner>, es: seq<Event>, k: nat)
    requires IsRun(t, Init(pods), es) && k <= |es|
    ensures IsRun(t, Init(pods), es[..k])
    ensures var early := After(t, Init(pods), es[..k]).row;
            var late := After(t, Init(pods), es).row;
            early.Some? ==>
              && late.Some?
              && early.value.epoch <= late.value.epoch
              && (early.value.epoch == late.value.epoch ==>
                    early.value.owner == late.value.owner && early.value.acquiredAt == late.value.acquiredAt)
    decreases |es|
  {
    if k == |es| {
      assert es[..k] == es;
    } else {
      var before := es[..|es| - 1];
      EpochFences(t, pods, before, k);
      assert before[..k] == es[..k];
    }
  }

  /** The events in which a pod wins the row. */
  predicate Wins(e: Event) { e.Acquire? || e.Renew? }

  /** Every winning round trip among the events from i up to m is this pod's. */
  ghost predicate OnlyWinner(es: seq<Event>, i: nat, m: nat, p: Owner)
    requires m <= |es|
  {
    forall k :: i <= k < m && Wins(es[k]) ==> es[k].pod == p
  }

  /** The row right after the first m events. */
  ghost function RowAt(t: Timing, pods: set<Owner>, es: seq<Event>, m: nat): Option<Lease>
    requires m <= |es| && IsRun(t, Init(pods), es)
  {
    PrefixIsRun(t, Init(pods), es, m);
    After(t, Init(pods), es[..m]).row
  }

  lemma {:induction false} PrefixIsRun(t: Timing, s: Fleet, es: seq<Event>, m: nat)
    requires m <= |es| && IsRun(t, s, es)
    ensures IsRun(t, s, es[..m])
    decreases |es|
  {
    if m == |es| {
      assert es[..m] == es;
    } else {
      PrefixIsRun(t, s, es[..|es| - 1], m);
      assert es[..|es| - 1][..m] == es[..m];
    }
  }

  /** What one event does to the owner and the epoch: a win names its pod, and counts when the row was another's. */
  ghost predicate RowMoves(e: Event, before: Option<Lease>, after: Option<Lease>) {
    if Wins(e) then
      && after.Some? && after.value.owner == e.pod
      && (before.Some? ==> after.value.epoch == before.value.epoch + if before.value.owner == e.pod then 0 else 1)
    else
      before.Some? ==> after.Some? && after.value.epoch == before.value.epoch && after.value.owner == before.value.owner
  }

  lemma RowStep(t: Timing, pods: set<Owner>, es: seq<Event>, m: nat)
    requires m < |es| && IsRun(t, Init(pods), es)
    ensures RowMoves(es[m], RowAt(t, pods, es, m), RowAt(t, pods, es, m + 1))
  {
    PrefixIsRun(t, Init(pods), es, m);
    PrefixIsRun(t, Init(pods), es, m + 1);
    assert es[..m + 1][..m] == es[..m];
    var s := After(t, Init(pods), es[..m]);
    if Wins(es[m]) {
      PrecheckIsTransparent(s.row, es[m].pod, s.now, t.ttl);
    }
  }

  /** From a row of p's: the epoch has not moved exactly when only p has won it, and then p still has it. */
  ghost predicate Held(first: Option<Lease>, now: Option<Lease>, p: Owner, onlyWinner: bool) {
    && first.Some? && now.Some? && first.value.epoch <= now.value.epoch
    && (first.value.epoch == now.value.epoch <==> onlyWinner)
    && (onlyWinner ==> now.value.owner == p)
  }

  lemma HeldStep(first: Option<Lease>, before: Option<Lease>, after: Option<Lease>, p: Owner, onlyWinner: bool, e: Event)
    requires Held(first, before, p, onlyWinner) && RowMoves(e, before, after)
    ensures Held(first, after, p, onlyWinner && (Wins(e) ==> e.pod == p))
  {
  }

  lemma OneMoreWinner(es: seq<Event>, i: nat, m: nat, p: Owner)
    requires i <= m < |es|
    ensures OnlyWinner(es, i, m + 1, p) <==> OnlyWinner(es, i, m, p) && (Wins(es[m]) ==> es[m].pod == p)
  {
  }

  /** As long as only one pod wins the row, it keeps it under one epoch; the first other winner raises the epoch for good. */
  lemma {:induction false} EpochCountsHandovers(t: Timing, pods: set<Owner>, es: seq<Event>, i: nat, m: nat)
    requires IsRun(t, Init(pods), es) && i < m <= |es| && Wins(es[i])
    ensures Held(RowAt(t, pods, es, i + 1), RowAt(t, pods, es, m), es[i].pod, OnlyWinner(es, i, m, es[i].pod))
    decreases m
  {
    RowStep(t, pods, es, m - 1);
    OneMoreWinner(es, i, m - 1, es[i].pod);
    if m > i + 1 {
      EpochCountsHandovers(t, pods, es, i, m - 1);
      HeldStep(RowAt(t, pods, es, i + 1), RowAt(t, pods, es, m - 1), RowAt(t, pods, es, m),
               es[i].pod, OnlyWinner(es, i, m - 1, es[i].pod), es[m - 1]);
    }
  }

  /**
   Two winning round trips of a run carry the same epoch exactly when the same pod won the
   row both times and nobody else won it in between.  In particular successive tenures of
   one pod share an epoch unless another pod's tenure separates them.
   */
  lemma SameEpochIff(t: Timing, pods: set<Owner>, es: seq<Event>, i: nat, j: nat)
    requires IsRun(t, Init(pods), es) && i < j < |es| && Wins(es[i]) && Wins(es[j])
    ensures RowAt(t, pods, es, i + 1).Some? && RowAt(t, pods, es, j + 1).Some?
    ensures RowAt(t, pods, es, i + 1).value.epoch == RowAt(t, pods, es, j + 1).value.epoch <==>
            es[i].pod == es[j].pod && forall k :: i < k < j && Wins(es[k]) ==> es[k].pod == es[i].pod
  {
    EpochCountsHandovers(t, pods, es, i, j + 1);
    assert OnlyWinner(es, i, j + 1, es[i].pod) <==>
           es[i].pod == es[j].pod && forall k :: i < k < j && Wins(es[k]) ==> es[k].pod == es[i].pod;
  }

  /** A dead leader blocks the rest for at most one lease lifetime after its last renewal. */
  lemma FailoverWithinTtl(t: Timing, pods: set<Owner>, es: seq<Event>, p: Owner, wait: real)
    requires t.Valid() && IsRun(t, Init(pods), es)
    requires wait > t.ttl
    requires var s := After(t, Init(pods), es);
             && (forall q :: q in s.pods ==> !s.pods[q].Ticking?)
             && p in s.pods && s.pods[p].Follower?
    ensures IsRun(t, Init(pods), es + [Elapse(wait)] + [Acquire(p)])
  {
    RunKeepsInv(t, pods, es);
    var s := After(t, Init(pods), es);
    var es1, s1 := Extend(t, Init(pods), es, s, Elapse(wait));
    var es2, s2 := Extend(t, Init(pods), es1, s1, Acquire(p));
  }

  // ---------------------------------------------------------------- what a renewal resumes

  /** The renewal goes on with the tenure that is in the row: same owner, epoch and `acquired_at`. */
  ghost predicate KeepsTenure(t: Timing, s: Fleet, p: Owner)
    requires Enabled(t, s, Renew(p))
  {
    var after := Apply(t, s, Renew(p)).row;
    && s.row.Some? && after.Some?
    && after.value.owner == s.row.value.owner == p
    && after.value.epoch == s.row.value.epoch && after.value.acquiredAt == s.row.value.acquiredAt
  }

  /**
   In every reachable state a renewal that succeeds keeps the tenure exactly when the row is
   still the pod's own, exactly when the epoch stays; and that is certain within one lease
   lifetime of the pod's last round trip.
   */
  lemma RenewalKeepsTenureIff(t: Timing, pods: set<Owner>, es: seq<Event>, p: Owner)
    requires t.Valid() && IsRun(t, Init(pods), es) && Enabled(t, After(t, Init(pods), es), Renew(p))
    ensures var s := After(t, Init(pods), es);
            var after := Apply(t, s, Renew(p)).row;
            && s.row.Some? && after.Some?
            && (after.value.epoch == s.row.value.epoch <==> s.row.value.owner == p)
            && (KeepsTenure(t, s, p) <==> s.row.value.owner == p)
            && (s.now <= s.pods[p].casAt + t.ttl ==> KeepsTenure(t, s, p))
  {
    RunKeepsInv(t, pods, es);
    var s := After(t, Init(pods), es);
    assert PodInv(t, s, p);
    PrecheckIsTransparent(s.row, p, s.now, t.ttl);
  }

  /** Every renewal at most `gap` after the pod's last round trip keeps its tenure, in every run of every fleet. */
  ghost predicate RenewalsKeepTenure(t: Timing, gap: real) {
    forall pods: set<Owner>, es: seq<Event>, p: Owner ::
      IsRun(t, Init(pods), es) && Enabled(t, After(t, Init(pods), es), Renew(p)) &&
      After(t, Init(pods), es).now - After(t, Init(pods), es).pods[p].casAt <= gap ==>
        KeepsTenure(t, After(t, Init(pods), es), p)
  }

  /** A renewal never follows a successor, if and only if renewals come at most one lease lifetime apart. */
  lemma RenewalsKeepTenureIff(t: Timing, gap: real)
    requires t.Valid()
    ensures RenewalsKeepTenure(t, gap) <==> gap <= t.ttl
  {
    if gap <= t.ttl {
      forall pods: set<Owner>, es: seq<Event>, p: Owner |
        IsRun(t, Init(pods), es) && Enabled(t, After(t, Init(pods), es), Renew(p)) &&
        After(t, Init(pods), es).now - After(t, Init(pods), es).pods[p].casAt <= gap
        ensures KeepsTenure(t, After(t, Init(pods), es), p)
      {
        RenewalKeepsTenureIff(t, pods, es, p);
      }
    } else {
      var es, s := SuccessorCameAndWent(t, "a", "b", gap);
      assert Enabled(t, s, Renew("a")) && !KeepsTenure(t, s, "a");
    }
  }

  /**
   Past that, a renewal can resume a tenure that another pod held in between: the statement
   succeeds on any expired row, so a leader that was frozen past its lease, while a successor
   came and went, renews without noticing.  The epoch shows the gap, the pod does not.
   */
  lemma RenewalAfterSuccessor(t: Timing, a: Owner, b: Owner, gap: real)
    requires t.Valid() && a != b && gap > t.ttl
    ensures var es := InterruptedTenure(t, a, b, gap);
            && IsRun(t, Init({a, b}), es)
            && var s := After(t, Init({a, b}), es);
               s.now == gap && s.pods[a] == Leader(gap, false) &&
               s.row.Some? && s.row.value.owner == a && s.row.value.epoch == 3
  {
    var es, s := SuccessorCameAndWent(t, a, b, gap);
    es, s := Extend(t, Init({a, b}), es, s, Renew(a));
    assert es == InterruptedTenure(t, a, b, gap);
  }

  /** `a` acquires and freezes; its lease runs out; `b` holds a tenure and releases it; `a` wakes up and renews. */
  function InterruptedTenure(t: Timing, a: Owner, b: Owner, gap: real): seq<Event> {
    var late := (gap - t.ttl) / 2.0;
    [Acquire(a), Elapse(t.ttl + late), Acquire(b), Resign(b), Release(b, true), Elapse(late), Renew(a)]
  }

  lemma LeaderFroze(t: Timing, a: Owner, b: Owner, gap: real) returns (es: seq<Event>, s: Fleet)
    requires t.Valid() && a != b && gap > t.ttl
    ensures es == InterruptedTenure(t, a, b, gap)[..2]
    ensures IsRun(t, Init({a, b}), es) && After(t, Init({a, b}), es) == s
    ensures s == Fleet(t.ttl + (gap - t.ttl) / 2.0, Some(Lease(a, 1, 0.0, 0.0, t.ttl)), map[a := Leader(0.0, false), b := Follower])
  {
    var s0 := Init({a, b});
    s, es := s0, [];
    es, s := Extend(t, s0, es, s, Acquire(a));
    es, s := Extend(t, s0, es, s, Elapse(t.ttl + (gap - t.ttl) / 2.0));
  }

  lemma SuccessorCame(t: Timing, a: Owner, b: Owner, gap: real) returns (es: seq<Event>, s: Fleet)
    requires t.Valid() && a != b && gap > t.ttl
    ensures es == InterruptedTenure(t, a, b, gap)[..4]
    ensures IsRun(t, Init({a, b}), es) && After(t, Init({a, b}), es) == s
    ensures s.now == t.ttl + (gap - t.ttl) / 2.0
    ensures s.pods == map[a := Leader(0.0, false), b := Resigning(s.now)]
    ensures s.row == Some(Lease(b, 2, s.now, s.now, s.now + t.ttl))
  {
    var s0 := Init({a, b});
    es, s := LeaderFroze(t, a, b, gap);
    es, s := Extend(t, s0, es, s, Acquire(b));
    es, s := Extend(t, s0, es, s, Resign(b));
  }

  lemma SuccessorCameAndWent(t: Timing, a: Owner, b: Owner, gap: real) returns (es: seq<Event>, s: Fleet)
    requires t.Valid() && a != b && gap > t.ttl
    ensures es == InterruptedTenure(t, a, b, gap)[..6]
    ensures IsRun(t, Init({a, b}), es) && After(t, Init({a, b}), es) == s
    ensures s.now == gap && a in s.pods && s.pods[a] == Leader(0.0, false)
    ensures s.row.Some? && s.row.value.owner == b && s.row.value.epoch == 2 && s.row.value.expiresAt < gap
  {
    var s0 := Init({a, b});
    es, s := SuccessorCame(t, a, b, gap);
    es, s := Extend(t, s0, es, s, Release(b, true));
    es, s := Extend(t, s0, es, s, Elapse((gap - t.ttl) / 2.0));
  }
}
