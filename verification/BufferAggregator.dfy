/**
 `AsyncBufferAggregator`: producers append to a shared buffer while one flush loop swaps it
 out and dispatches it.  The class is the code; the step system around it is every
 interleaving of producers, the loop, its callback, cancellation and restart that the
 event loop can produce.
 */
module BufferAggregator {
  import opened Options

  /** `threshold` wakes the loop early; `maxSize` is the optional hard cap. */
  datatype Config = Config(threshold: int, maxSize: Option<int>)

  /** How items leave the buffer: together in a dispatched batch, or alone, dropped at the cap. */
  datatype Exit<T> = Batch(items: seq<T>) | Dropped(item: T)

  function Items<T>(e: Exit<T>): seq<T> {
    match e case Batch(items) => items case Dropped(x) => [x]
  }

  /** Everything that has left, in the order of leaving. */
  function Left<T>(log: seq<Exit<T>>): seq<T> {
    if log == [] then [] else Left(log[..|log| - 1]) + Items(log[|log| - 1])
  }

  /**
   Where the flush loop is.  `Cleared` lies between clearing the event and swapping the
   buffer.  No section under the buffer's lock awaits anything, so the lock is always free
   and the loop cannot be cancelled there; producers are let in there all the same.
   `Stopping` lasts from stop()'s cancel to its own flush; a start() meanwhile does nothing.
   */
  datatype Pc = Waiting | Woken | Cleared | Dispatching | Stopping | Stopped

  /** The aggregator with its history: `added` is every item ever accepted, `log` every exit. */
  datatype State<T> = State(buffer: seq<T>, event: bool, pc: Pc, added: seq<T>, log: seq<Exit<T>>)

  datatype Action<T> =
    | Add(item: T)
    | Wake            // the event is set or the interval has passed
    | Clear
    | Swap
    | CallbackEnds    // returns or raises: the loop goes back to its wait either way
    | ManualFlush     // a flush asked for from outside, whatever the loop is doing
    | Cancel          // stop() cancels the loop wherever it is suspended
    | FinalFlush      // stop()'s own swap
    | Start

  function Init<T>(): State<T> { State([], false, Stopped, [], []) }

  /** `add` at the cap with nothing to drop raises: only a cap of zero or less gets there. */
  predicate AddRaises<T>(c: Config, s: State<T>) {
    c.maxSize.Some? && |s.buffer| >= c.maxSize.value && s.buffer == []
  }

  predicate AddDrops<T>(c: Config, s: State<T>) {
    c.maxSize.Some? && |s.buffer| >= c.maxSize.value && s.buffer != []
  }

  function Added<T>(c: Config, s: State<T>, x: T): State<T> {
    if AddRaises(c, s) then s else
    var drops := AddDrops(c, s);
    var kept := (if drops then s.buffer[1..] else s.buffer) + [x];
    s.(buffer := kept,
       event := s.event || |kept| >= c.threshold,
       added := s.added + [x],
       log := if drops then s.log + [Dropped(s.buffer[0])] else s.log)
  }

  /** Copy and clear under the lock; an empty buffer dispatches nothing. */
  function Swapped<T>(s: State<T>): State<T> {
    if s.buffer == [] then s else s.(buffer := [], log := s.log + [Batch(s.buffer)])
  }

  predicate Enabled<T>(s: State<T>, a: Action<T>) {
    match a
    case Add(_) => true
    case Wake => s.pc.Waiting?
    case Clear => s.pc.Woken?
    case Swap => s.pc.Cleared?
    case CallbackEnds => s.pc.Dispatching?
    case ManualFlush => true
    case Cancel => s.pc.Waiting? || s.pc.Woken? || s.pc.Dispatching?
    case FinalFlush => s.pc.Stopping? || s.pc.Stopped?
    case Start => s.pc.Stopped?
  }

  function Apply<T>(c: Config, s: State<T>, a: Action<T>): State<T>
    requires Enabled(s, a)
  {
    match a
    case Add(x) => Added(c, s, x)
    case Wake => s.(pc := Woken)
    case Clear => s.(event := false, pc := Cleared)
    case Swap => Swapped(s).(pc := if s.buffer == [] then Waiting else Dispatching)
    case CallbackEnds => s.(pc := Waiting)
    case ManualFlush => Swapped(s)
    case Cancel => s.(pc := Stopping)
    case FinalFlush => Swapped(s).(pc := Stopped)
    case Start => s.(pc := Waiting)
  }

  ghost predicate IsRun<T>(c: Config, acts: seq<Action<T>>)
    decreases |acts|, 0
  {
    acts == [] || (IsRun(c, acts[..|acts| - 1]) && Enabled(After(c, acts[..|acts| - 1]), acts[|acts| - 1]))
  }

  ghost function After<T>(c: Config, acts: seq<Action<T>>): State<T>
    requires IsRun(c, acts)
    decreases |acts|, 1
  {
    if acts == [] then Init() else Apply(c, After(c, acts[..|acts| - 1]), acts[|acts| - 1])
  }

  // ---------------------------------------------------------------- what every step keeps

  /** The buffer holds enough for an early flush. */
  predicate Full<T>(c: Config, s: State<T>) { s.buffer != [] && |s.buffer| >= c.threshold }

  /** Every accepted item has left, once and in order, or is still waiting its turn. */
  ghost predicate Conserved<T>(s: State<T>) { s.added == Left(s.log) + s.buffer }

  /** Drops happen only under a cap, and no batch is empty. */
  ghost predicate LogSound<T>(c: Config, log: seq<Exit<T>>) {
    forall k :: 0 <= k < |log| ==> (log[k].Dropped? ==> c.maxSize.Some?) && Items(log[k]) != []
  }

  ghost predicate Inv<T>(c: Config, s: State<T>) {
    && Conserved(s)
    && LogSound(c, s.log)
    // the cap holds
    && (c.maxSize.Some? ==> |s.buffer| <= if c.maxSize.value < 0 then 0 else c.maxSize.value)
    // a full buffer has a wake-up pending, except where the next step is a swap anyway
    && (Full(c, s) ==> s.event || s.pc.Cleared?)
  }

  lemma LeftSnoc<T>(log: seq<Exit<T>>, e: Exit<T>)
    ensures Left(log + [e]) == Left(log) + Items(e)
  {
    assert (log + [e])[..|log|] == log;
  }

  lemma LogSnoc<T>(c: Config, log: seq<Exit<T>>, e: Exit<T>)
    requires LogSound(c, log) && (e.Dropped? ==> c.maxSize.Some?) && Items(e) != []
    ensures LogSound(c, log + [e])
  {
  }

  /** The oldest leaves, the newest comes: the whole grows by the newest. */
  lemma Shifted<T>(left: seq<T>, buffer: seq<T>, x: T)
    ensures buffer != [] ==> (left + [buffer[0]]) + (buffer[1..] + [x]) == (left + buffer) + [x]
    ensures left + (buffer + [x]) == (left + buffer) + [x]
  {
    if buffer != [] {
      assert buffer == [buffer[0]] + buffer[1..];
    }
  }

  lemma AddConserves<T>(c: Config, s: State<T>, x: T)
    requires Conserved(s)
    ensures Conserved(Added(c, s, x))
  {
    Shifted(Left(s.log), s.buffer, x);
    if AddDrops(c, s) {
      LeftSnoc(s.log, Dropped(s.buffer[0]));
    }
  }

  lemma AddKeepsInv<T>(c: Config, s: State<T>, x: T)
    requires Inv(c, s)
    ensures Inv(c, Added(c, s, x))
  {
    AddConserves(c, s, x);
    if AddDrops(c, s) {
      LogSnoc(c, s.log, Dropped(s.buffer[0]));
    }
  }

  lemma SwapKeepsInv<T>(c: Config, s: State<T>)
    requires Inv(c, s)
    ensures Inv(c, Swapped(s))
    ensures Swapped(s).buffer == [] && Swapped(s).added == s.added
  {
    if s.buffer != [] {
      LeftSnoc(s.log, Batch(s.buffer));
      LogSnoc(c, s.log, Batch(s.buffer));
      assert Left(s.log) + s.buffer == (Left(s.log) + s.buffer) + [];
    }
  }

  /** Behind an empty buffer the loop may be anywhere. */
  lemma EmptyKeepsInv<T>(c: Config, s: State<T>, pc: Pc)
    requires Inv(c, s) && s.buffer == []
    ensures Inv(c, s.(pc := pc))
  {
  }

  lemma StepKeepsInv<T>(c: Config, s: State<T>, a: Action<T>)
    requires Inv(c, s) && Enabled(s, a)
    ensures Inv(c, Apply(c, s, a))
  {
    match a
    case Add(x) => AddKeepsInv(c, s, x);
    case Swap =>
      SwapKeepsInv(c, s);
      EmptyKeepsInv(c, Swapped(s), if s.buffer == [] then Waiting else Dispatching);
    case ManualFlush =>
      SwapKeepsInv(c, s);
    case FinalFlush =>
      SwapKeepsInv(c, s);
      EmptyKeepsInv(c, Swapped(s), Stopped);
    case _ =>
  }

  lemma {:induction false} RunKeepsInv<T>(c: Config, acts: seq<Action<T>>)
    requires IsRun(c, acts)
    ensures Inv(c, After(c, acts))
  {
    if acts != [] {
      RunKeepsInv(c, acts[..|acts| - 1]);
      StepKeepsInv(c, After(c, acts[..|acts| - 1]), acts[|acts| - 1]);
    }
  }

  // ---------------------------------------------------------------- the promises

  /**
   In every interleaving: the buffer is a suffix of what was added and never over the cap,
   and what is not in it has left exactly once, in order.
   */
  lemma NothingLostOrRepeated<T>(c: Config, acts: seq<Action<T>>)
    requires IsRun(c, acts)
    ensures var s := After(c, acts);
            && s.added == Left(s.log) + s.buffer
            && s.buffer == s.added[|s.added| - |s.buffer|..]
            && (c.maxSize.Some? && c.maxSize.value >= 0 ==> |s.buffer| <= c.maxSize.value)
            && (c.maxSize.None? ==> forall k :: 0 <= k < |s.log| ==> s.log[k].Batch?)
  {
    RunKeepsInv(c, acts);
  }

  /** The k-th exit took the items of `whole` that come right after those the exits before it took. */
  ghost predicate TookSegment<T>(log: seq<Exit<T>>, k: nat, whole: seq<T>)
    requires k < |log|
  {
    var from := |Left(log[..k])|;
    var upto := from + |Items(log[k])|;
    from < upto <= |whole| && Items(log[k]) == whole[from..upto]
  }

  /**
   Every exit took a contiguous segment of what was added, starting exactly where the exits
   before it stopped: batches are disjoint and in order, and a dropped item was the oldest
   at the time.
   */
  lemma {:induction false} ExitIsSegment<T>(c: Config, acts: seq<Action<T>>, k: nat)
    requires IsRun(c, acts) && k < |After(c, acts).log|
    ensures TookSegment(After(c, acts).log, k, After(c, acts).added)
  {
    LoggedSoundly(c, acts, k);
    LogSegment(After(c, acts).log, After(c, acts).buffer, k);
  }

  lemma LoggedSoundly<T>(c: Config, acts: seq<Action<T>>, k: nat)
    requires IsRun(c, acts) && k < |After(c, acts).log|
    ensures After(c, acts).added == Left(After(c, acts).log) + After(c, acts).buffer && Items(After(c, acts).log[k]) != []
  {
    RunKeepsInv(c, acts);
  }

  lemma LogSegment<T>(log: seq<Exit<T>>, buffer: seq<T>, k: nat)
    requires k < |log| && Items(log[k]) != []
    ensures TookSegment(log, k, Left(log) + buffer)
  {
    LeftUpTo(log, k);
    LeftSplits(log, k + 1);
    Segment(Left(log[..k]), Items(log[k]), Left(log), buffer);
  }

  lemma LeftUpTo<T>(log: seq<Exit<T>>, k: nat)
    requires k < |log|
    ensures Left(log[..k + 1]) == Left(log[..k]) + Items(log[k])
  {
    assert log[..k + 1][..k] == log[..k];
  }

  lemma Segment<T>(a: seq<T>, b: seq<T>, whole: seq<T>, rest: seq<T>)
    requires a + b <= whole
    ensures |a| + |b| <= |whole + rest| && b == (whole + rest)[|a|..|a| + |b|]
  {
    assert (a + b)[|a|..] == b;
  }

  lemma {:induction false} LeftSplits<T>(log: seq<Exit<T>>, k: nat)
    requires k <= |log|
    ensures Left(log[..k]) <= Left(log)
  {
    if k == |log| {
      assert log[..k] == log;
    } else {
      LeftSplits(log[..|log| - 1], k);
      assert log[..|log| - 1][..k] == log[..k];
    }
  }

  /** No lost wake-up: a loop at its wait with a full buffer behind it has its event set. */
  lemma NoLostWakeup<T>(c: Config, acts: seq<Action<T>>)
    requires IsRun(c, acts)
    ensures var s := After(c, acts);
            s.pc.Waiting? && s.buffer != [] && |s.buffer| >= c.threshold ==> s.event
  {
    RunKeepsInv(c, acts);
  }

  lemma Extend<T>(c: Config, acts: seq<Action<T>>, s: State<T>, a: Action<T>) returns (acts': seq<Action<T>>, s': State<T>)
    requires IsRun(c, acts) && After(c, acts) == s && Enabled(s, a)
    ensures acts' == acts + [a] && IsRun(c, acts') && After(c, acts') == s' == Apply(c, s, a)
  {
    acts' := acts + [a];
    assert acts'[..|acts'| - 1] == acts;
    s' := Apply(c, s, a);
  }

  /**
   An item is dropped exactly when one is added to a buffer that has reached its cap, and then
   it is the oldest; below the cap, or without one, adding only appends.
   */
  lemma DropsIff<T>(c: Config, acts: seq<Action<T>>, x: T)
    requires IsRun(c, acts)
    ensures IsRun(c, acts + [Add(x)])
    ensures var before, after := After(c, acts), After(c, acts + [Add(x)]);
            && (after.log != before.log <==>
                  c.maxSize.Some? && before.buffer != [] && |before.buffer| >= c.maxSize.value)
            && (after.log != before.log ==> after.log == before.log + [Dropped(before.buffer[0])])
            && (c.maxSize.None? || |before.buffer| < c.maxSize.value ==> after.buffer == before.buffer + [x])
  {
    var acts', s' := Extend(c, acts, After(c, acts), Add(x));
    assert |After(c, acts).log| != |After(c, acts).log + [Dropped(x)]|;
  }

  lemma {:induction false} PrefixIsRun<T>(c: Config, acts: seq<Action<T>>, m: nat)
    requires m <= |acts| && IsRun(c, acts)
    ensures IsRun(c, acts[..m])
    decreases |acts|
  {
    if m == |acts| {
      assert acts[..m] == acts;
    } else {
      PrefixIsRun(c, acts[..|acts| - 1], m);
      assert acts[..|acts| - 1][..m] == acts[..m];
    }
  }

  ghost function StateAt<T>(c: Config, acts: seq<Action<T>>, m: nat): State<T>
    requires m <= |acts| && IsRun(c, acts)
  {
    PrefixIsRun(c, acts, m);
    After(c, acts[..m])
  }

  /** The k-th action is an add that was accepted and left at least `threshold` items. */
  ghost predicate Rings<T>(c: Config, acts: seq<Action<T>>, k: nat)
    requires k < |acts| && IsRun(c, acts)
  {
    && acts[k].Add?
    && |StateAt(c, acts, k + 1).added| > |StateAt(c, acts, k).added|
    && |StateAt(c, acts, k + 1).buffer| >= c.threshold
  }

  ghost predicate RungSinceClear<T>(c: Config, acts: seq<Action<T>>)
    requires IsRun(c, acts)
  {
    exists k :: 0 <= k < |acts| && Rings(c, acts, k) && forall j :: k < j < |acts| ==> !acts[j].Clear?
  }

  lemma RingsStable<T>(c: Config, before: seq<Action<T>>, a: Action<T>, k: nat)
    requires IsRun(c, before + [a]) && IsRun(c, before) && k < |before|
    ensures Rings(c, before + [a], k) <==> Rings(c, before, k)
  {
    assert (before + [a])[..k] == before[..k] && (before + [a])[..k + 1] == before[..k + 1];
  }

  lemma RingsLast<T>(c: Config, before: seq<Action<T>>, a: Action<T>)
    requires IsRun(c, before + [a]) && IsRun(c, before) && Enabled(After(c, before), a)
    ensures Rings(c, before + [a], |before|) <==>
            a.Add? && !AddRaises(c, After(c, before)) && |Apply(c, After(c, before), a).buffer| >= c.threshold
  {
    assert (before + [a])[..|before|] == before && (before + [a])[..|before| + 1] == before + [a];
  }

  lemma RungStep<T>(c: Config, before: seq<Action<T>>, a: Action<T>)
    requires IsRun(c, before + [a]) && IsRun(c, before)
    ensures RungSinceClear(c, before + [a]) <==>
            Rings(c, before + [a], |before|) || (!a.Clear? && RungSinceClear(c, before))
  {
    var all := before + [a];
    if RungSinceClear(c, all) {
      var k :| 0 <= k < |all| && Rings(c, all, k) && forall j :: k < j < |all| ==> !all[j].Clear?;
      if k < |before| {
        RingsStable(c, before, a, k);
        assert all[|before|] == a;
        assert forall j :: k < j < |before| ==> !before[j].Clear? by {
          assert forall j :: k < j < |before| ==> before[j] == all[j];
        }
      }
    }
    if !a.Clear? && RungSinceClear(c, before) {
      var k :| 0 <= k < |before| && Rings(c, before, k) && forall j :: k < j < |before| ==> !before[j].Clear?;
      RingsStable(c, before, a, k);
      assert forall j :: k < j < |all| ==> !all[j].Clear?;
    }
  }

  /** The event is set exactly when some add since the last clear left at least `threshold` items. */
  lemma {:induction false} EventIff<T>(c: Config, acts: seq<Action<T>>)
    requires IsRun(c, acts)
    ensures After(c, acts).event <==> RungSinceClear(c, acts)
  {
    if acts != [] {
      var before, a := acts[..|acts| - 1], acts[|acts| - 1];
      assert acts == before + [a];
      EventIff(c, before);
      RingsLast(c, before, a);
      RungStep(c, before, a);
    }
  }

  /** What `stop()` leaves behind: an empty buffer, with everything accepted so far dispatched or dropped. */
  lemma StopDrains<T>(c: Config, acts: seq<Action<T>>)
    requires IsRun(c, acts) && acts != [] && acts[|acts| - 1].FinalFlush?
    ensures After(c, acts).buffer == [] && After(c, acts).added == Left(After(c, acts).log)
  {
    RunKeepsInv(c, acts);
  }

  /** An aggregator capped at zero or less refuses everything. */
  lemma {:induction false} ZeroCapRefusesAll<T>(c: Config, acts: seq<Action<T>>)
    requires IsRun(c, acts) && c.maxSize.Some? && c.maxSize.value <= 0
    ensures After(c, acts).added == [] && After(c, acts).log == []
  {
    if acts != [] {
      ZeroCapRefusesAll(c, acts[..|acts| - 1]);
      RunKeepsInv(c, acts[..|acts| - 1]);
    }
  }

  lemma OneMore<T>(earlier: seq<T>, items: seq<T>, i: nat)
    requires i < |items|
    ensures earlier + items[..i + 1] == (earlier + items[..i]) + [items[i]]
  {
  }

  // ---------------------------------------------------------------- the object

  /** Nothing is buffered under a cap of zero or less. */
  lemma EmptyAtZeroCap<T>(c: Config, acts: seq<Action<T>>)
    requires IsRun(c, acts)
    ensures c.maxSize.Some? && c.maxSize.value <= 0 ==> After(c, acts).buffer == []
  {
    RunKeepsInv(c, acts);
  }

  /** Behind an empty buffer everything accepted has left. */
  lemma EmptyMeansAllLeft<T>(c: Config, acts: seq<Action<T>>)
    requires IsRun(c, acts) && After(c, acts).buffer == []
    ensures Left(After(c, acts).log) == After(c, acts).added
  {
    RunKeepsInv(c, acts);
  }

  /** The object itself; `history` is the run of the step system it has been through, `view` where that run has led. */
  class Aggregator<T> {
    const config: Config
    var buffer: seq<T>
    var flushEvent: bool
    ghost var history: seq<Action<T>>
    ghost var view: State<T>

    ghost predicate Valid()
      reads this
    {
      && IsRun(config, history) && After(config, history) == view
      && view.buffer == buffer && view.event == flushEvent
    }

    constructor (config: Config)
      ensures Valid() && view == Init() && history == [] && this.config == config
    {
      this.config := config;
      buffer, flushEvent, history, view := [], false, [], Init();
    }

    /** `add`: true when accepted, false when dropping from an empty buffer raised. */
    method Add(item: T) returns (accepted: bool)
      requires Valid()
      modifies this
      ensures Valid() && history == old(history) + [Action.Add(item)]
      ensures view == Apply(config, old(view), Action.Add(item))
      ensures accepted <==> Accepting()
      ensures view.pc == old(view.pc)
      ensures view.added == if accepted then old(view.added) + [item] else old(view.added)
      ensures accepted ==> buffer != [] && buffer[|buffer| - 1] == item
    {
      EmptyAtZeroCap(config, history);
      history, view := Extend(config, history, view, Action.Add(item));
      if config.maxSize.Some? && |buffer| >= config.maxSize.value {
        if buffer == [] {
          return false;
        }
        buffer := buffer[1..];
      }
      buffer := buffer + [item];
      if |buffer| >= config.threshold {
        flushEvent := true;
      }
      return true;
    }

    /** The swap of `_trigger_flush`: hands over the whole buffer, or nothing when it is empty. */
    method TriggerFlush(ghost step: Action<T>) returns (toFlush: Option<seq<T>>)
      requires Valid() && Enabled(view, step) && (step.ManualFlush? || step.Swap? || step.FinalFlush?)
      modifies this`buffer, this`history, this`view
      ensures Valid() && history == old(history) + [step]
      ensures buffer == [] && view == Apply(config, old(view), step)
      ensures toFlush == if old(buffer) == [] then None else Some(old(buffer))
    {
      history, view := Extend(config, history, view, step);
      if buffer == [] {
        return None;
      }
      toFlush := Some(buffer);
      buffer := [];
    }

    /** An object whose `add` can accept anything at all. */
    predicate Accepting() {
      config.maxSize.Some? ==> config.maxSize.value > 0
    }

    /** The event is cleared before the buffer is swapped. */
    method BeginPass()
      requires Valid() && view.pc.Waiting?
      modifies this`flushEvent, this`history, this`view
      ensures Valid() && history == old(history) + [Wake, Clear]
      ensures view == old(view).(event := false, pc := Cleared)
    {
      history, view := Extend(config, history, view, Wake);
      history, view := Extend(config, history, view, Clear);
      flushEvent := false;
    }

    /** Producers that get in one after another. */
    method AddAll(items: seq<T>)
      requires Valid()
      modifies this
      ensures Valid() && view.pc == old(view.pc)
      ensures view.added == if Accepting() then old(view.added) + items else old(view.added)
    {
      ghost var earlier := view.added;
      assert earlier + items[..0] == earlier;
      var i := 0;
      while i < |items|
        invariant 0 <= i <= |items|
        invariant Valid() && view.pc == old(view.pc)
        invariant view.added == if Accepting() then earlier + items[..i] else earlier
      {
        var accepted := Add(items[i]);
        OneMore(earlier, items, i);
        i := i + 1;
      }
      assert items[..i] == items;
    }

    /**
     One pass of `_loop`, from its wait to the dispatch, with producers getting in between
     the clear and the swap: they may set the event again, and still nothing stays behind.
     */
    method LoopOnce(between: seq<T>) returns (toFlush: Option<seq<T>>)
      requires Valid() && view.pc.Waiting?
      modifies this
      ensures Valid() && buffer == []
      ensures view.added == if Accepting() then old(view.added) + between else old(view.added)
      ensures Left(view.log) == view.added
      ensures toFlush.Some? ==> view.log != [] && view.log[|view.log| - 1] == Batch(toFlush.value)
      ensures view.pc == if toFlush.Some? then Dispatching else Waiting
    {
      BeginPass();
      AddAll(between);
      toFlush := TriggerFlush(Swap);
      EmptyMeansAllLeft(config, history);
    }
  }
}
