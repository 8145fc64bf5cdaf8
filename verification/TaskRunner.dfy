/**
 The one-shot task runner: `main_task.py` around one row of the tasks table.

 The statements it sends are modelled with the conditions they really carry, and every
 call it makes can go through, raise, or be cancelled.  While the task runs, other
 processes may do anything to the row.
 */
module TaskRunner {
  import opened Options

  datatype Status = Created | Pending | Active | Running | Completed | Failed | Dismissed | DeadLetter

  datatype TaskRow = TaskRow(status: Status, owner: Option<string>, leaseUntil: Option<real>, retryCount: nat, maxRetries: int)

  /** The default visibility timeout, in seconds. */
  const VISIBILITY_TIMEOUT := 300.0

  // ---------------------------------------------------------------- the statements

  predicate IsTerminal(s: Status) { s.Completed? || s.Failed? || s.Dismissed? || s.DeadLetter? }

  /** The guard of `claim_for_execution`: not finished, and not under a live lease of someone else. */
  predicate Claimable(r: TaskRow, me: string, now: real) {
    && !IsTerminal(r.status)
    && !(r.status.Active? && r.leaseUntil.Some? && r.leaseUntil.value > now && r.owner != Some(me))
  }

  /** Exactly the unfinished rows can be claimed, the active ones only when their lease is over, missing or one's own. */
  lemma ClaimableIff(r: TaskRow, me: string, now: real)
    ensures Claimable(r, me, now) <==>
            || r.status == Created || r.status == Pending || r.status == Running
            || (r.status == Active && (r.leaseUntil.None? || r.leaseUntil.value <= now || r.owner == Some(me)))
  {
  }

  function Claimed(r: TaskRow, me: string, until: real): TaskRow {
    r.(status := Active, owner := Some(me), leaseUntil := Some(until))
  }

  /**
   A claim shuts every other process out for its lease, lets its own owner back in, and
   never brings a finished row back; once the lease has run out the row is free again.
   */
  lemma ClaimExcludesOthers(r: TaskRow, me: string, other: string, now: real, later: real)
    requires Claimable(r, me, now) && other != me
    ensures var claimed := Claimed(r, me, now + VISIBILITY_TIMEOUT);
            && (Claimable(claimed, other, later) <==> later >= now + 300.0)
            && Claimable(claimed, me, later)
            && !Claimable(MarkedCompleted(claimed), other, later) && !Claimable(MarkedFailed(claimed), other, later)
            && Claimable(Reset(claimed), other, later)
  {
  }

  function MarkedCompleted(r: TaskRow): TaskRow { r.(status := Completed, owner := None, leaseUntil := None) }

  /** `fail_task(retry=False)`. */
  function MarkedFailed(r: TaskRow): TaskRow { r.(status := Failed, owner := None, leaseUntil := None) }

  predicate RetriesLeft(cap: int, r: TaskRow) {
    r.retryCount + 1 < r.maxRetries && r.retryCount + 1 < cap
  }

  /** `fail_task(retry=True)`: back to the queue while retries are left.  Its WHERE looks at no status. */
  function Requeued(cap: int, r: TaskRow, backoff: real): TaskRow {
    if RetriesLeft(cap, r)
    then r.(status := Pending, owner := None, leaseUntil := Some(backoff), retryCount := r.retryCount + 1)
    else r.(status := DeadLetter, leaseUntil := None, retryCount := r.retryCount + 1)
  }

  function Reset(r: TaskRow): TaskRow {
    if r.status.Active? then r.(status := Pending, owner := None, leaseUntil := None) else r
  }

  // ---------------------------------------------------------------- what the run meets

  datatype Step = Fine | Raises | Cancels

  /**
   A write and how its call ends.  One that raises or is interrupted may have committed
   before that: the statements commit and then await other things.
   */
  datatype Write = Goes | Breaks(landed: bool) | Interrupted(landed: bool) {
    predicate Lands() { Goes? || landed }
    function End(): Step { match this case Goes => Fine case Breaks(_) => Raises case Interrupted(_) => Cancels }
  }
  datatype TaskFate = Succeeds | FailsPermanently | FailsOtherwise | IsCancelled
  datatype TaskId = NoTaskId | BadTaskId | GoodTaskId

  datatype Fates<!R> = Fates(
    taskId: TaskId,
    bootstrap: Step, modulesEnter: Step, tasksEnter: Step, setup: Step,   // setup: find the task, resolve and validate its payload
    hasEngine: bool, hasTasksManager: bool,
    claim: Write, lookup: Step, me: string, now: real,
    task: TaskFate, meanwhile: R -> R,
    complete: Write, permanentFail: Write, finalTimeout: bool, cancelWrite: Write,
    tasksExit: Step, modulesExit: Step,
    protocolsFound: bool, outerFail: Write, report: Write,
    hardCap: int, backoff: real)

  /** How a block is left.  `reported` is the stamp the in-lifecycle handler puts on an exception. */
  datatype Ending = Returned | SystemExit(code: int) | CancelledError | Error(reported: bool)

  class Run {
    var row: Option<TaskRow>
    var taskRan: bool
    var heartbeatStarted: bool
    var heartbeatRunning: bool
    var reportCalled: bool
    constructor (row: Option<TaskRow>)
      ensures this.row == row && !taskRan && !heartbeatStarted && !heartbeatRunning && !reportCalled
    {
      this.row := row;
      taskRan, heartbeatStarted, heartbeatRunning, reportCalled := false, false, false, false;
    }
  }

  type RunFates = Fates<Option<TaskRow>>

  function Via(f: TaskRow -> TaskRow, r: Option<TaskRow>): Option<TaskRow> {
    if r.Some? then Some(f(r.value)) else None
  }

  /** A write that lands changes the row if there is one. */
  function Written(w: Write, f: TaskRow -> TaskRow, r: Option<TaskRow>): Option<TaskRow> {
    if w.Lands() then Via(f, r) else r
  }

  /** The task may write its own status: it has an id and a database. */
  predicate Recorded(f: RunFates) { f.taskId.GoodTaskId? && f.hasEngine }

  /** The task runs under a claim of its row. */
  predicate Owned(f: RunFates) { Recorded(f) && f.hasTasksManager }

  // ---------------------------------------------------------------- the task and its own handlers

  /** How the task block ends. */
  function TaskEnding(f: RunFates): Ending {
    match f.task
    case Succeeds =>
      if Recorded(f) && f.complete.Interrupted? then CancelledError
      else if Recorded(f) && f.complete.Breaks? then Error(false)
      else Returned
    case FailsPermanently => if Recorded(f) && f.permanentFail.Interrupted? then CancelledError else Error(false)
    case FailsOtherwise => Error(false)
    case IsCancelled => CancelledError
  }

  /** What the cancellation handler leaves on the row. */
  function RowAfterCancel(f: RunFates, r: Option<TaskRow>): Option<TaskRow> {
    if Owned(f) && f.finalTimeout then
      // guarded by the owner this run claimed with
      if r.Some? && r.value.owner == Some(f.me) then Written(f.cancelWrite, MarkedFailed, r) else r
    else Written(f.cancelWrite, Reset, r)
  }

  /** What the task block leaves on the row. */
  function RowAfterTask(f: RunFates, before: Option<TaskRow>): Option<TaskRow> {
    var r := f.meanwhile(before);
    if !Recorded(f) then r
    else
      match f.task
      case Succeeds =>
        var written := Written(f.complete, MarkedCompleted, r);
        if f.complete.Interrupted? then RowAfterCancel(f, written) else written
      case FailsPermanently => Written(f.permanentFail, MarkedFailed, r)
      case FailsOtherwise => r
      case IsCancelled => RowAfterCancel(f, r)
  }

  /** The innermost block: run the task, write its end, and cancel the heartbeat on every way out. */
  method RunTask(run: Run, f: RunFates) returns (e: Ending)
    requires run.heartbeatRunning ==> Owned(f)
    modifies run
    ensures e == TaskEnding(f) && run.row == RowAfterTask(f, old(run.row))
    ensures run.taskRan && !run.heartbeatRunning
    ensures run.heartbeatStarted == old(run.heartbeatStarted) && run.reportCalled == old(run.reportCalled)
  {
    run.taskRan := true;
    run.row := f.meanwhile(run.row);
    e := match f.task
      case Succeeds => Returned
      case FailsPermanently => Error(false)
      case FailsOtherwise => Error(false)
      case IsCancelled => CancelledError;
    if e.Returned? && Recorded(f) {
      if f.complete.Lands() {
        run.row := Via(MarkedCompleted, run.row);
      }
      if !f.complete.Goes? {
        e := Failing(f.complete.End());
      }
    }
    if e.CancelledError? {
      if Recorded(f) {
        if Owned(f) && f.finalTimeout {
          if f.cancelWrite.Lands() && run.row.Some? && run.row.value.owner == Some(f.me) {
            run.row := Via(MarkedFailed, run.row);
          }
        } else if f.cancelWrite.Lands() {
          run.row := Via(Reset, run.row);
        }
      }
    } else if f.task.FailsPermanently? && Recorded(f) {
      if f.permanentFail.Lands() {
        run.row := Via(MarkedFailed, run.row);
      }
      if !f.permanentFail.Goes? {
        e := Failing(f.permanentFail.End());
      }
    }
    run.heartbeatRunning := false;
  }

  // ---------------------------------------------------------------- inside the lifecycles

  function Failing(s: Step): Ending { if s.Cancels? then CancelledError else Error(false) }

  /** `_exit_code_for_unclaimed_status`. */
  function UnclaimedExit(s: Option<Status>): int {
    if s == Some(Failed) || s == Some(DeadLetter) then 1 else 0
  }

  /** The claim finds the row and takes it. */
  predicate Takes(f: RunFates, r: Option<TaskRow>) { r.Some? && Claimable(r.value, f.me, f.now) }

  /** The setup went through and the claim was answered with no row. */
  predicate Refused(f: RunFates, r: Option<TaskRow>) {
    f.setup.Fine? && Owned(f) && f.claim.Goes? && !Takes(f, r)
  }

  /** The setup and, if owned, the claim went through: the task gets to run. */
  predicate GetsToRun(f: RunFates, r: Option<TaskRow>) {
    f.setup.Fine? && (Owned(f) ==> f.claim.Goes? && Takes(f, r))
  }

  /** Leaving a context manager: what its exit raises replaces whatever was in flight. */
  function LeftThrough(e: Ending, exit: Step): Ending {
    match exit case Fine => e case Raises => Error(false) case Cancels => CancelledError
  }

  function RefusedEnding(f: RunFates, r: Option<TaskRow>): Ending {
    if f.lookup.Cancels? then CancelledError
    else
      var code := UnclaimedExit(if f.lookup.Fine? && r.Some? then Some(r.value.status) else None);
      if code != 0 then SystemExit(code) else Returned
  }

  /** How the task lifecycle is left. */
  function InnerEnding(f: RunFates, r: Option<TaskRow>): Ending {
    LeftThrough(
      if !f.setup.Fine? then Failing(f.setup)
      else if Owned(f) && !f.claim.Goes? then Failing(f.claim.End())
      else if Refused(f, r) then RefusedEnding(f, r)
      else TaskEnding(f), f.tasksExit)
  }

  /** The row after the claim, if there is one and it lands. */
  function RowClaimed(f: RunFates, r: Option<TaskRow>): Option<TaskRow> {
    if f.setup.Fine? && Owned(f) && f.claim.Lands() && Takes(f, r)
    then Some(Claimed(r.value, f.me, f.now + VISIBILITY_TIMEOUT)) else r
  }

  /** What is left on the row by then. */
  function InnerRow(f: RunFates, r: Option<TaskRow>): Option<TaskRow> {
    if GetsToRun(f, r) then RowAfterTask(f, RowClaimed(f, r)) else RowClaimed(f, r)
  }

  method InsideTasks(run: Run, f: RunFates) returns (e: Ending)
    requires !run.heartbeatRunning && !run.heartbeatStarted && !run.taskRan
    modifies run
    ensures !run.heartbeatRunning
    ensures run.reportCalled == old(run.reportCalled)
    ensures run.taskRan <==> GetsToRun(f, old(run.row))
    ensures run.heartbeatStarted <==> GetsToRun(f, old(run.row)) && Owned(f)
    ensures run.row == InnerRow(f, old(run.row)) && e == InnerEnding(f, old(run.row))
  {
    if !f.setup.Fine? {
      e := Failing(f.setup);
    } else {
      var took := Owned(f) && Takes(f, run.row);
      if took && f.claim.Lands() {
        run.row := Some(Claimed(run.row.value, f.me, f.now + VISIBILITY_TIMEOUT));
      }
      if Owned(f) && !f.claim.Goes? {
        e := Failing(f.claim.End());
      } else if Owned(f) && !took {
        var status := None;
        if f.lookup.Fine? && run.row.Some? {
          status := Some(run.row.value.status);
        }
        var code := UnclaimedExit(status);
        e := if f.lookup.Cancels? then CancelledError else if code != 0 then SystemExit(code) else Returned;
      } else {
        if Owned(f) {
          run.heartbeatStarted, run.heartbeatRunning := true, true;
        }
        e := RunTask(run, f);
      }
    }
    e := LeftThrough(e, f.tasksExit);
  }

  // ---------------------------------------------------------------- the outer handler and the process

  /** An ordinary exception reached the in-lifecycle handler and the handler's own write landed. */
  predicate OuterWriteLands(f: RunFates, e: Ending, r: Option<TaskRow>) {
    e.Error? && f.taskId.GoodTaskId? && f.protocolsFound && f.outerFail.Lands() && r.Some?
  }

  /** The process gets as far as the in-lifecycle handler. */
  predicate Enters(f: RunFates) { !f.taskId.BadTaskId? && f.bootstrap.Fine? && f.modulesEnter.Fine? }

  function NotEntered(f: RunFates): Ending {
    if f.taskId.BadTaskId? then Error(false)
    else if !f.bootstrap.Fine? then Failing(f.bootstrap)
    else Failing(f.modulesEnter)
  }

  /** What the in-lifecycle handler meets, and the row as it finds it. */
  function AtHandler(f: RunFates, r: Option<TaskRow>): Ending {
    if f.tasksEnter.Fine? then InnerEnding(f, r) else Failing(f.tasksEnter)
  }

  function RowAtHandler(f: RunFates, r: Option<TaskRow>): Option<TaskRow> {
    if f.tasksEnter.Fine? then InnerRow(f, r) else r
  }

  /** The in-lifecycle handler's retrying write lands on the row. */
  predicate ReportedInside(f: RunFates, r: Option<TaskRow>) {
    Enters(f) && OuterWriteLands(f, AtHandler(f, r), RowAtHandler(f, r))
  }

  /** ... and the handler got to hear of it. */
  predicate Stamped(f: RunFates, r: Option<TaskRow>) { ReportedInside(f, r) && f.outerFail.Goes? }

  function MainRow(f: RunFates, r: Option<TaskRow>): Option<TaskRow> {
    if ReportedInside(f, r) then Some(Requeued(f.hardCap, RowAtHandler(f, r).value, f.backoff))
    else if Enters(f) then RowAtHandler(f, r)
    else r
  }

  function ProcessEnding(f: RunFates, r: Option<TaskRow>): Ending {
    if !Enters(f) then NotEntered(f)
    else
      LeftThrough(
        if AtHandler(f, r).Error? && f.taskId.GoodTaskId? && f.protocolsFound && f.outerFail.Interrupted? then CancelledError
        else if AtHandler(f, r).Error? then Error(Stamped(f, r))
        else AtHandler(f, r), f.modulesExit)
  }

  /** `main`: the in-lifecycle failure report, then the module lifecycles are left. */
  method MainTask(run: Run, f: RunFates) returns (e: Ending)
    requires !run.heartbeatRunning && !run.heartbeatStarted && !run.taskRan && !run.reportCalled
    modifies run
    ensures !run.heartbeatRunning && !run.reportCalled
    ensures run.heartbeatStarted ==> run.taskRan
    ensures e.Error? && e.reported ==> run.row.Some? && (run.row.value.status.Pending? || run.row.value.status.DeadLetter?)
    ensures run.taskRan <==> Enters(f) && f.tasksEnter.Fine? && GetsToRun(f, old(run.row))
    ensures run.row == MainRow(f, old(run.row)) && e == ProcessEnding(f, old(run.row))
  {
    if f.taskId.BadTaskId? {
      return Error(false);
    }
    if !f.bootstrap.Fine? {
      return Failing(f.bootstrap);
    }
    if !f.modulesEnter.Fine? {
      return Failing(f.modulesEnter);
    }
    if f.tasksEnter.Fine? {
      e := InsideTasks(run, f);
    } else {
      e := Failing(f.tasksEnter);
    }
    if e.Error? && f.taskId.GoodTaskId? && f.protocolsFound {
      if f.outerFail.Lands() && run.row.Some? {
        run.row := Some(Requeued(f.hardCap, run.row.value, f.backoff));
      }
      if f.outerFail.Interrupted? {
        e := CancelledError;
      } else if f.outerFail.Goes? && run.row.Some? {
        e := Error(true);
      }
    }
    e := LeftThrough(e, f.modulesExit);
  }

  /**
   The process.  Its promises, in every run: a heartbeat never outlives the task; with a
   task id, an ordinary exception ends the process with status 1 and is reported from
   outside exactly when it does not carry the stamp of the report from inside; and the exit
   status of everything else is the status it chose.
   */
  method Process(run: Run, f: RunFates) returns (e: Ending, exit: int)
    requires !run.heartbeatRunning && !run.heartbeatStarted && !run.taskRan && !run.reportCalled
    modifies run
    ensures !run.heartbeatRunning
    ensures e.Error? ==> exit == 1
    ensures run.reportCalled <==> ReportedOutside(f, old(run.row))
    ensures e.Error? && !f.taskId.NoTaskId? ==> ReportedInside(f, old(run.row)) || run.reportCalled
    ensures exit == 0 <==> e.Returned?
    ensures exit == 0 || exit == 1
    ensures run.taskRan && exit == 0 ==> f.task.Succeeds?
    ensures run.row == ProcessRow(f, old(run.row)) && e == ProcessEnding(f, old(run.row))
    // an unclaimable row is neither run nor heartbeaten
    ensures run.heartbeatStarted ==> run.taskRan
    ensures run.taskRan <==> Enters(f) && f.tasksEnter.Fine? && GetsToRun(f, old(run.row))
  {
    ReturnsIff(f, run.row);
    ExitsEarlyIff(f, run.row);
    e := MainTask(run, f);
    if e.Error? && !f.taskId.NoTaskId? && !e.reported {
      run.reportCalled := true;
      // a malformed id raises inside report_failure too, before its write
      if f.taskId.GoodTaskId? && f.report.Lands() {
        run.row := Via(StatusSetFailed, run.row);
      }
    }
    exit := match e case Returned => 0 case SystemExit(c) => c case CancelledError => 1 case Error(_) => 1;
  }

  /** `report_failure`: the unconditional status write. */
  function StatusSetFailed(r: TaskRow): TaskRow { r.(status := Failed) }

  /** `report_failure` is called from the outermost handler. */
  predicate ReportedOutside(f: RunFates, r: Option<TaskRow>) {
    !f.taskId.NoTaskId? && ProcessEnding(f, r) == Error(false)
  }

  function ProcessRow(f: RunFates, r: Option<TaskRow>): Option<TaskRow> {
    if ProcessEnding(f, r) == Error(false) && f.taskId.GoodTaskId? && f.report.Lands()
    then Via(StatusSetFailed, MainRow(f, r)) else MainRow(f, r)
  }

  // ---------------------------------------------------------------- what is left on the row

  /** The run gets to the task under a claim, and the row is still there when the task is done. */
  predicate RanOwned(f: RunFates, r: Option<TaskRow>) {
    && Enters(f) && f.tasksEnter.Fine? && Owned(f) && GetsToRun(f, r)
    && f.meanwhile(Some(Claimed(r.value, f.me, f.now + VISIBILITY_TIMEOUT))).Some?
  }

  /** The row as the task's own handlers find it. */
  function RowSeen(f: RunFates, r: Option<TaskRow>): TaskRow
    requires RanOwned(f, r)
  {
    f.meanwhile(Some(Claimed(r.value, f.me, f.now + VISIBILITY_TIMEOUT))).value
  }

  /**
   An ordinary exception under a task id is never left unreported, and both ways are taken
   exactly when, after the write from inside has landed, leaving the module lifecycles
   raises or the call of that write did: what comes out then carries no stamp.  The row that
   write put back in the queue, or dead-lettered, then ends FAILED, its retry already counted.
   */
  lemma ReportedTwiceIff(f: RunFates, r: Option<TaskRow>)
    ensures ProcessEnding(f, r).Error? && !f.taskId.NoTaskId? ==> ReportedInside(f, r) || ReportedOutside(f, r)
    ensures ReportedInside(f, r) && ReportedOutside(f, r) <==>
            ReportedInside(f, r) && (f.modulesExit.Raises? || (f.modulesExit.Fine? && f.outerFail.Breaks?))
    ensures ReportedInside(f, r) && ReportedOutside(f, r) && f.report.Lands() ==>
              ProcessRow(f, r) == Some(StatusSetFailed(Requeued(f.hardCap, RowAtHandler(f, r).value, f.backoff)))
    ensures ReportedInside(f, r) && ReportedOutside(f, r) && f.report.Lands() ==>
              ProcessRow(f, r).value.status == Failed && ProcessRow(f, r).value.retryCount == RowAtHandler(f, r).value.retryCount + 1
  {
  }

  /** What the two outer handlers write, given whether an ordinary exception reached the first of them. */
  predicate RequeueLands(f: RunFates, failing: bool) { failing && f.protocolsFound && f.outerFail.Lands() }

  predicate FailedLands(f: RunFates, failing: bool) {
    && f.report.Lands()
    && (f.modulesExit.Raises? || (f.modulesExit.Fine? && failing && (f.protocolsFound ==> f.outerFail.Breaks?)))
  }

  // ---------------------------------------------------------------- what each way of ending means

  /** Nothing outside the task and its row went wrong. */
  predicate SmoothAround(f: RunFates) {
    && !f.taskId.BadTaskId? && f.bootstrap.Fine? && f.modulesEnter.Fine? && f.tasksEnter.Fine? && f.setup.Fine?
    && f.tasksExit.Fine? && f.modulesExit.Fine?
  }

  predicate RowHasFailed(r: Option<TaskRow>) {
    r.Some? && (r.value.status == Failed || r.value.status == DeadLetter)
  }

  /**
   The process ends well exactly when everything around the task did and either the task
   itself succeeded and, where it is recorded, the call recording it returned; or its row was
   not to be had, as far as could be seen for no failure of its own.
   */
  lemma ReturnsIff(f: RunFates, r: Option<TaskRow>)
    ensures ProcessEnding(f, r) == Returned <==>
            && SmoothAround(f)
            && (Owned(f) ==> f.claim.Goes?)
            && if Owned(f) && !Takes(f, r)
               then !f.lookup.Cancels? && !(f.lookup.Fine? && RowHasFailed(r))
               else f.task.Succeeds? && (Recorded(f) ==> f.complete.Goes?)
  {
  }

  /** It chooses a status itself exactly when the row was not to be had because an earlier attempt had failed for good. */
  lemma ExitsEarlyIff(f: RunFates, r: Option<TaskRow>)
    ensures ProcessEnding(f, r).SystemExit? <==>
            SmoothAround(f) && Owned(f) && f.claim.Goes? && !Takes(f, r) && f.lookup.Fine? && RowHasFailed(r)
    ensures ProcessEnding(f, r).SystemExit? ==> ProcessEnding(f, r).code == 1
  {
  }

  /** A cancellation comes out only if something was cancelled. */
  lemma CancelledOnlyIf(f: RunFates, r: Option<TaskRow>)
    requires ProcessEnding(f, r) == CancelledError
    ensures || f.bootstrap.Cancels? || f.modulesEnter.Cancels? || f.tasksEnter.Cancels? || f.setup.Cancels?
            || f.claim.Interrupted? || f.lookup.Cancels? || f.task.IsCancelled?
            || f.complete.Interrupted? || f.permanentFail.Interrupted? || f.outerFail.Interrupted?
            || f.tasksExit.Cancels? || f.modulesExit.Cancels?
  {
  }

  /** Without a task id nothing is written: what happens to the row is what others do to it. */
  lemma WithoutIdNothingWritten(f: RunFates, r: Option<TaskRow>)
    requires f.taskId.NoTaskId?
    ensures ProcessRow(f, r) == if Enters(f) && f.tasksEnter.Fine? && f.setup.Fine? then f.meanwhile(r) else r
  {
  }

  /** The row after n failed attempts in a row. */
  function RequeuedTimes(cap: int, r: TaskRow, backoff: real, n: nat): TaskRow {
    if n == 0 then r else Requeued(cap, RequeuedTimes(cap, r, backoff, n - 1), backoff)
  }

  /** Failed attempts are counted one by one, and the row is back in the queue exactly while both limits allow another. */
  lemma {:induction false} RetriesAreBounded(cap: int, r: TaskRow, backoff: real, n: nat)
    requires n >= 1
    ensures var last := RequeuedTimes(cap, r, backoff, n);
            && last.retryCount == r.retryCount + n && last.maxRetries == r.maxRetries
            && (last.status == Pending <==> r.retryCount + n < r.maxRetries && r.retryCount + n < cap)
            && (last.status == DeadLetter <==> !(r.retryCount + n < r.maxRetries && r.retryCount + n < cap))
            && (last.status == Pending ==> last.owner.None? && last.leaseUntil == Some(backoff))
  {
    if n > 1 {
      RetriesAreBounded(cap, r, backoff, n - 1);
    } else {
      assert RequeuedTimes(cap, r, backoff, 0) == r;
    }
  }

  // ---------------------------------------------------------------- what each fate leaves

  /** The database answers every write, and both lifecycles are left cleanly. */
  predicate AllGoesThrough(f: RunFates) {
    && f.complete.Goes? && f.permanentFail.Goes? && f.cancelWrite.Goes?
    && f.protocolsFound && f.outerFail.Goes? && f.report.Goes?
    && f.tasksExit.Fine? && f.modulesExit.Fine?
  }

  /**
   A permanent failure does not stay failed: the inner handler writes FAILED, the exception
   travels on to the in-lifecycle handler, and that one's retrying write, which looks at no
   status, puts the row back in the queue or dead-letters it.
   */
  lemma PermanentFailureIsRequeued(f: RunFates, r: Option<TaskRow>)
    requires RanOwned(f, r) && f.task.FailsPermanently? && AllGoesThrough(f)
    ensures ProcessEnding(f, r) == Error(true)
    ensures var last := ProcessRow(f, r);
            && last.Some?
            && last.value.retryCount == RowSeen(f, r).retryCount + 1
            && last.value.status == (if RetriesLeft(f.hardCap, RowSeen(f, r)) then Pending else DeadLetter)
  {
    assert InnerEnding(f, r) == Error(false);
    assert InnerRow(f, r) == Some(MarkedFailed(RowSeen(f, r)));
  }

  /** An ordinary exception leaves the task lifecycle of a permanently failing run, unless something is cancelled. */
  predicate StillFailing(f: RunFates) {
    f.tasksExit.Raises? || (f.tasksExit.Fine? && !f.permanentFail.Interrupted?)
  }

  /**
   Whatever the writes and teardowns do, it ends FAILED exactly when the last write to land
   is a plain FAILED one: the report from outside, or, with no requeue after it, the task
   handler's own (or the row was FAILED already).
   */
  lemma PermanentFailureEndsFailedIff(f: RunFates, r: Option<TaskRow>)
    requires RanOwned(f, r) && f.task.FailsPermanently?
    ensures ProcessRow(f, r).Some?
    ensures ProcessRow(f, r).value.status == Failed <==>
            || FailedLands(f, StillFailing(f))
            || (!RequeueLands(f, StillFailing(f)) && (f.permanentFail.Lands() || RowSeen(f, r).status == Failed))
  {
    assert InnerEnding(f, r).Error? <==> StillFailing(f);
    assert InnerRow(f, r) == Written(f.permanentFail, MarkedFailed, Some(RowSeen(f, r)));
  }

  /**
   An ordinary failure: unless leaving the task lifecycle is cancelled the exception reaches
   the in-lifecycle handler.  The row then ends as the last write to land leaves it: FAILED by
   the report from outside, else in the queue or dead-lettered by the requeue, else as it was;
   and a retry is counted exactly when the requeue landed.
   */
  lemma OrdinaryFailureEnds(f: RunFates, r: Option<TaskRow>)
    requires RanOwned(f, r) && f.task.FailsOtherwise?
    ensures var failing, seen := !f.tasksExit.Cancels?, RowSeen(f, r);
            && ProcessRow(f, r).Some?
            && ProcessRow(f, r).value.retryCount == seen.retryCount + (if RequeueLands(f, failing) then 1 else 0)
            && ProcessRow(f, r).value.status ==
               (if FailedLands(f, failing) then Failed
                else if !RequeueLands(f, failing) then seen.status
                else if RetriesLeft(f.hardCap, seen) then Pending
                else DeadLetter)
    ensures AllGoesThrough(f) ==> ProcessEnding(f, r) == Error(true)
  {
    assert InnerEnding(f, r).Error? <==> !f.tasksExit.Cancels?;
    assert InnerRow(f, r) == Some(RowSeen(f, r));
  }

  /** An ordinary exception leaves the task lifecycle of a run whose COMPLETED was written. */
  predicate FailsAfterCompletion(f: RunFates) {
    f.tasksExit.Raises? || (f.tasksExit.Fine? && f.complete.Breaks?)
  }

  /**
   A row once written COMPLETED stays so exactly when neither outer handler's write lands;
   the cancellation handler never takes it back, its writes being guarded by owner and status.
   */
  lemma CompletedStaysIff(f: RunFates, r: Option<TaskRow>)
    requires RanOwned(f, r) && f.task.Succeeds? && f.complete.Lands()
    ensures ProcessRow(f, r).Some?
    ensures ProcessRow(f, r).value.status == Completed <==>
            !RequeueLands(f, FailsAfterCompletion(f)) && !FailedLands(f, FailsAfterCompletion(f))
    ensures RequeueLands(f, FailsAfterCompletion(f)) && !FailedLands(f, FailsAfterCompletion(f)) ==>
              ProcessRow(f, r).value.status == if RetriesLeft(f.hardCap, RowSeen(f, r)) then Pending else DeadLetter
  {
    assert InnerEnding(f, r).Error? <==> FailsAfterCompletion(f);
    assert InnerRow(f, r) == Some(MarkedCompleted(RowSeen(f, r)));
  }

  /** A row the run may not claim is left alone exactly when neither outer handler changes it. */
  lemma RefusedRowUntouchedIff(f: RunFates, r: Option<TaskRow>)
    requires Enters(f) && f.tasksEnter.Fine? && Refused(f, r)
    ensures ProcessRow(f, r) == r <==>
            || r.None?
            || (!RequeueLands(f, f.tasksExit.Raises?) && (FailedLands(f, f.tasksExit.Raises?) ==> r.value.status.Failed?))
  {
    assert InnerRow(f, r) == r;
    assert InnerEnding(f, r) == LeftThrough(RefusedEnding(f, r), f.tasksExit);
    if r.Some? {
      assert Requeued(f.hardCap, r.value, f.backoff).retryCount != r.value.retryCount;
    }
  }

  /** The row a cancelled run means to leave: FAILED on a final timeout if still its own, else free for another run. */
  function Freed(f: RunFates, r: Option<TaskRow>): TaskRow
    requires RanOwned(f, r)
  {
    var seen := RowSeen(f, r);
    if !f.cancelWrite.Lands() then seen
    else if !f.finalTimeout then Reset(seen)
    else if seen.owner == Some(f.me) then MarkedFailed(seen)
    else seen
  }

  /**
   SIGTERM, by contrast, is final when it should be: on a final-attempt timeout the row ends
   FAILED if it is still this run's, and is otherwise untouched; in every other case an
   active row goes back to the queue.  It stays so, and no retry is used up, exactly as far
   as no teardown raises and is recorded.
   */
  lemma CancelledTaskIsReleased(f: RunFates, r: Option<TaskRow>)
    requires RanOwned(f, r) && f.task.IsCancelled?
    ensures ProcessEnding(f, r) == CancelledError <==>
            !f.modulesExit.Raises? &&
            (f.modulesExit.Cancels? || !f.tasksExit.Raises? || (f.protocolsFound && f.outerFail.Interrupted?))
    ensures ProcessRow(f, r).Some?
    ensures ProcessRow(f, r).value.retryCount == RowSeen(f, r).retryCount <==> !RequeueLands(f, f.tasksExit.Raises?)
    ensures ProcessRow(f, r).value == Freed(f, r) <==>
            !RequeueLands(f, f.tasksExit.Raises?) && (FailedLands(f, f.tasksExit.Raises?) ==> Freed(f, r).status.Failed?)
    ensures Freed(f, r).retryCount == RowSeen(f, r).retryCount
  {
    assert InnerEnding(f, r) == LeftThrough(CancelledError, f.tasksExit);
    assert InnerRow(f, r) == Some(Freed(f, r));
  }
}
