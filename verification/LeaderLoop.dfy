/**
 The control flow of `run_leader_loop`: elect, probe, one bounded tick, release, sleep, repeat.

 What each round meets from outside (the election, the probe, the tick, the sleep) is a
 parameter; the loop's own doing is the trace it leaves.  The trace is judged by an
 automaton that knows nothing of the code: it only says what holding leadership may look like.
 */
module LeaderLoop {

  datatype Entry = EntryRaises | EntryCancelled | NotElected | Elected
  datatype Fate = Passes | Raises | Cancelled
  datatype TickFate = Returns | TimesOut | TickRaises | TickCancelled

  /** One round of the loop as its environment decides it. */
  datatype Round = Round(entry: Entry, probe: Fate, tick: TickFate, sleepCancelled: bool) {
    /** Some await of this round is cancelled. */
    predicate Cancels() {
      || entry.EntryCancelled?
      || (entry.Elected? && (probe.Cancelled? || (probe.Passes? && tick.TickCancelled?)))
      || sleepCancelled
    }
  }

  datatype LoopEvent = Acquired | ProbePassed | TickStarted | TickEnded | Released | Slept

  // ---------------------------------------------------------------- what holding leadership may look like

  datatype Phase = Idle | Fresh | Probed | InTick | Done | Broken

  /** Leadership is taken only when idle, ticks at most once and only after the probe, and is never slept on. */
  function Next(p: Phase, e: LoopEvent): Phase {
    match (p, e)
    case (Idle, Acquired) => Fresh
    case (Idle, Slept) => Idle
    case (Fresh, ProbePassed) => Probed
    case (Fresh, Released) => Idle
    case (Probed, TickStarted) => InTick
    case (InTick, TickEnded) => Done
    case (Done, Released) => Idle
    case _ => Broken
  }

  function PhaseAfter(trace: seq<LoopEvent>): Phase {
    if trace == [] then Idle else Next(PhaseAfter(trace[..|trace| - 1]), trace[|trace| - 1])
  }

  function Count(trace: seq<LoopEvent>, e: LoopEvent): nat {
    if trace == [] then 0
    else Count(trace[..|trace| - 1], e) + if trace[|trace| - 1] == e then 1 else 0
  }

  lemma Snoc(trace: seq<LoopEvent>, e: LoopEvent)
    ensures PhaseAfter(trace + [e]) == Next(PhaseAfter(trace), e)
    ensures forall x :: Count(trace + [e], x) == Count(trace, x) + if x == e then 1 else 0
  {
    assert (trace + [e])[..|trace + [e]| - 1] == trace;
  }

  /** A broken trace stays broken, so a good end means every prefix was good too. */
  lemma {:induction false} GoodPrefix(trace: seq<LoopEvent>, k: nat)
    requires k <= |trace| && PhaseAfter(trace) != Broken
    ensures PhaseAfter(trace[..k]) != Broken
  {
    if k < |trace| {
      GoodPrefix(trace[..|trace| - 1], k);
      assert trace[..|trace| - 1][..k] == trace[..k];
    } else {
      assert trace[..k] == trace;
    }
  }

  /** Every tenure is closed before the next one opens, at every point of a good trace. */
  lemma {:induction false} TenuresNest(trace: seq<LoopEvent>, k: nat)
    requires k <= |trace| && PhaseAfter(trace) != Broken
    ensures Count(trace[..k], Released) <= Count(trace[..k], Acquired) <= Count(trace[..k], Released) + 1
    ensures PhaseAfter(trace[..k]) == Idle <==> Count(trace[..k], Acquired) == Count(trace[..k], Released)
    ensures Count(trace[..k], TickStarted) <= Count(trace[..k], ProbePassed) <= Count(trace[..k], Acquired)
    decreases k
  {
    GoodPrefix(trace, k);
    if k > 0 {
      TenuresNest(trace, k - 1);
      TicksFollowProbes(trace, k - 1);
      assert trace[..k][..k - 1] == trace[..k - 1];
    }
  }

  /** In a fresh tenure one acquisition is still unprobed; in a probed one, one probe is still unticked. */
  lemma {:induction false} TicksFollowProbes(trace: seq<LoopEvent>, k: nat)
    requires k <= |trace| && PhaseAfter(trace) != Broken
    ensures PhaseAfter(trace[..k]) == Fresh ==> Count(trace[..k], ProbePassed) < Count(trace[..k], Acquired)
    ensures PhaseAfter(trace[..k]) == Probed ==> Count(trace[..k], TickStarted) < Count(trace[..k], ProbePassed)
    ensures Count(trace[..k], TickStarted) <= Count(trace[..k], ProbePassed) <= Count(trace[..k], Acquired)
    decreases k
  {
    GoodPrefix(trace, k);
    if k > 0 {
      TicksFollowProbes(trace, k - 1);
      GoodPrefix(trace, k - 1);
      assert trace[..k][..k - 1] == trace[..k - 1];
    }
  }

  // ---------------------------------------------------------------- the loop

  /** One tenure: entered with leadership won, left (releasing) on every path out of probe and tick. */
  method LeadOnce(trace: seq<LoopEvent>, probe: Fate, tick: TickFate) returns (out: seq<LoopEvent>, stop: bool)
    requires PhaseAfter(trace) == Idle
    ensures PhaseAfter(out) == Idle
    ensures stop <==> probe.Cancelled? || (probe.Passes? && tick.TickCancelled?)
    ensures Count(out, Acquired) == Count(trace, Acquired) + 1
    ensures Count(out, TickStarted) == Count(trace, TickStarted) + if probe.Passes? then 1 else 0
    ensures Count(out, Slept) == Count(trace, Slept)
  {
    out := Emit(trace, Acquired);
    stop := probe.Cancelled?;
    if probe.Passes? {
      out := Emit(out, ProbePassed);
      out := Emit(out, TickStarted);
      // Returned, timed out, raised or cancelled: the tick is over.
      out := Emit(out, TickEnded);
      stop := tick.TickCancelled?;
    }
    out := Emit(out, Released);
  }

  method Emit(trace: seq<LoopEvent>, e: LoopEvent) returns (out: seq<LoopEvent>)
    ensures out == trace + [e]
    ensures PhaseAfter(out) == Next(PhaseAfter(trace), e)
    ensures forall x :: Count(out, x) == Count(trace, x) + if x == e then 1 else 0
  {
    Snoc(trace, e);
    out := trace + [e];
  }

  /**
   Runs until shutdown (the end of `rounds`) or cancellation.  Whatever the rounds do,
   the trace obeys the automaton and ends with nothing held; the loop sleeps one cadence
   per round, ticks exactly when elected and probed, and gives up only when cancelled.
   */
  method RunLeaderLoop(rounds: seq<Round>) returns (trace: seq<LoopEvent>, cancelled: bool)
    ensures PhaseAfter(trace) == Idle
    ensures cancelled <==> exists i :: 0 <= i < |rounds| && rounds[i].Cancels()
    ensures !cancelled ==> Count(trace, Slept) == |rounds|
    ensures !cancelled ==> Count(trace, Acquired) == CountElected(rounds)
    ensures !cancelled ==> Count(trace, TickStarted) == CountTicking(rounds)
  {
    trace, cancelled := [], false;
    var i := 0;
    while i < |rounds|
      invariant 0 <= i <= |rounds|
      invariant !cancelled
      invariant PhaseAfter(trace) == Idle
      invariant forall j :: 0 <= j < i ==> !rounds[j].Cancels()
      invariant Count(trace, Slept) == i
      invariant Count(trace, Acquired) == CountElected(rounds[..i])
      invariant Count(trace, TickStarted) == CountTicking(rounds[..i])
    {
      var r := rounds[i];
      assert rounds[..i + 1][..i] == rounds[..i];
      if r.entry.EntryCancelled? {
        cancelled := true;
        return;
      }
      if r.entry.Elected? {
        trace, cancelled := LeadOnce(trace, r.probe, r.tick);
        if cancelled {
          return;
        }
      }
      if r.sleepCancelled {
        cancelled := true;
        return;
      }
      trace := Emit(trace, Slept);
      i := i + 1;
    }
    assert rounds[..i] == rounds;
  }

  function CountElected(rounds: seq<Round>): nat {
    if rounds == [] then 0
    else CountElected(rounds[..|rounds| - 1]) + if rounds[|rounds| - 1].entry.Elected? then 1 else 0
  }

  function CountTicking(rounds: seq<Round>): nat {
    if rounds == [] then 0
    else CountTicking(rounds[..|rounds| - 1]) +
         if rounds[|rounds| - 1].entry.Elected? && rounds[|rounds| - 1].probe.Passes? then 1 else 0
  }
}
