/**
 The retry loop of an agent task. What a session does in an attempt is an oracle: it may time
 out, raise, or end with the task in any state at all, and the pre-retry callback may raise.
 Prompts, token counts and the timing of attempts are not modelled.
 */
module AgentRetry {
  import opened Wrappers
  import opened Lifecycle

  /** The fixed messages of the loop, and the texts it takes over from errors and validation. */
  datatype Message =
    | TaskCompleted | TaskTimedOut | PreRetryAborted | PostchecksFailed | PrechecksFailed
    | Text(text: string) | OutputValidation(text: string) | EndedInState(state: TaskState)

  datatype Check = Check(passed: bool, message: Message)

  datatype Ending = TimedOut | Raised(text: string) | Ended(valid: bool, text: string)

  /** One attempt: the state and locks the session leaves behind, and how it ended. */
  datatype Attempt = Attempt(preRetryRaises: bool, state: TaskState, locked: bool, ending: Ending)

  datatype Task = Task(retry: int, preRetry: bool, outputSchema: bool)

  datatype Prior = Prior(attempt: int, error: Message)

  /** An attempt as it starts: its number, the task's state and the attempts it is told of. */
  datatype Record = Record(attempt: int, state: TaskState, prior: seq<Prior>)

  datatype Report =
    | ToParent(attempts: int, failed: seq<Message>)
    | ToOverseer(attempts: int, checks: seq<Check>)

  datatype Parent = Parent(hasSession: bool, state: TaskState)

  datatype TaskResult = TaskResult(checks: seq<Check>, escalated: bool)

  // ---- specification --------------------------------------------------------------------

  /** What the loop makes of an attempt: it stops in one of three ways or goes on. */
  datatype Verdict = Accept | Timeout | GiveUp | Retry(error: Message, checks: Option<seq<Check>>)

  function JudgeSession(task: Task, a: Attempt): Verdict {
    match a.ending
    case TimedOut => Timeout
    case Raised(text) => Retry(Text(text), Some([Check(false, Text(text))]))
    case Ended(valid, text) =>
      if a.state == Completed then
        if task.outputSchema && !valid then Retry(OutputValidation(text), Some([Check(false, Text(text))]))
        else Accept
      else if a.state == PostcheckFailed then Retry(PostchecksFailed, Some([Check(false, PostchecksFailed)]))
      else if a.state == PrecheckFailed then Retry(PrechecksFailed, Some([Check(false, PrechecksFailed)]))
      else Retry(EndedInState(a.state), None)
  }

  function Judge(task: Task, session: nat -> Attempt, k: nat): Verdict {
    if k > 1 && task.preRetry && session(k).preRetryRaises then GiveUp else JudgeSession(task, session(k))
  }

  datatype Outcome = Stopped(at: nat, how: Verdict) | Exhausted

  function OutcomeFrom(task: Task, session: nat -> Attempt, k: nat): Outcome
    decreases task.retry + 1 - k
  {
    if k > task.retry + 1 then Exhausted
    else if Judge(task, session, k).Retry? then OutcomeFrom(task, session, k + 1)
    else Stopped(k, Judge(task, session, k))
  }

  function OutcomeOf(task: Task, session: nat -> Attempt): Outcome {
    OutcomeFrom(task, session, 1)
  }

  function MaxAttempts(task: Task): nat {
    if task.retry + 1 > 0 then task.retry + 1 else 0
  }

  function AttemptsMade(task: Task, o: Outcome): nat {
    if o.Exhausted? then MaxAttempts(task) else o.at
  }

  function ErrorOf(v: Verdict): Message {
    if v.Retry? then v.error else TaskCompleted
  }

  /** The records of attempts 1 to `n`. */
  function Priors(task: Task, session: nat -> Attempt, n: nat): seq<Prior> {
    if n == 0 then [] else Priors(task, session, n - 1) + [Prior(n, ErrorOf(Judge(task, session, n)))]
  }

  /** The check results held after `n` attempts: those of the last one that set any. */
  function Checks(task: Task, session: nat -> Attempt, n: nat): seq<Check> {
    if n == 0 then []
    else Recheck(Checks(task, session, n - 1), Judge(task, session, n))
  }

  function Recheck(checks: seq<Check>, v: Verdict): seq<Check> {
    if v.Retry? && v.checks.Some? then v.checks.value else checks
  }

  /** Attempt `k + 1` started in CREATED and was told of attempts 1 to `k`. */
  predicate Recorded(task: Task, session: nat -> Attempt, started: seq<Record>) {
    forall k :: 0 <= k < |started| ==> started[k] == Record(k + 1, Created, Priors(task, session, k))
  }

  /** `n` attempts have been made, all retried: what has been recorded, and the outcome still open. */
  ghost predicate AfterAttempts(task: Task, session: nat -> Attempt, n: nat,
                                started: seq<Record>, prior: seq<Prior>, checks: seq<Check>) {
    && n <= MaxAttempts(task) && |started| == n && Recorded(task, session, started)
    && prior == Priors(task, session, n) && checks == Checks(task, session, n)
    && OutcomeFrom(task, session, n + 1) == OutcomeOf(task, session)
  }

  /** The next attempt stops the loop, or the one after it is to be made. */
  lemma NextAttempt(task: Task, session: nat -> Attempt, k: nat,
                    started: seq<Record>, prior: seq<Prior>, checks: seq<Check>)
    requires 1 <= k <= task.retry + 1 && AfterAttempts(task, session, k - 1, started, prior, checks)
    ensures var verdict, recorded := Judge(task, session, k), started + [Record(k, Created, prior)];
      if verdict.Retry? then
        AfterAttempts(task, session, k, recorded, prior + [Prior(k, verdict.error)], Recheck(checks, verdict))
      else
        |recorded| == k && Recorded(task, session, recorded) && OutcomeOf(task, session) == Stopped(k, verdict)
  {
  }

  function FinalState(o: Outcome): TaskState {
    if o.Exhausted? || o.how.GiveUp? then Escalated
    else if o.how.Timeout? then Cancelled
    else Completed
  }

  function LastCheck(v: Verdict): Check {
    if v.GiveUp? then Check(false, PreRetryAborted)
    else if v.Timeout? then Check(false, TaskTimedOut)
    else Check(true, TaskCompleted)
  }

  function FinalChecks(task: Task, session: nat -> Attempt, o: Outcome): seq<Check> {
    if o.Exhausted? then Checks(task, session, MaxAttempts(task)) else [LastCheck(o.how)]
  }

  function Failed(checks: seq<Check>): seq<Message> {
    if checks == [] then []
    else (if checks[0].passed then [] else [checks[0].message]) + Failed(checks[1..])
  }

  /** A message is listed exactly if a check with it has failed. */
  lemma {:induction false} FailedAre(checks: seq<Check>)
    ensures forall m :: m in Failed(checks) <==> Check(false, m) in checks
  {
    if checks != [] {
      FailedAre(checks[1..]);
      assert forall c :: c in checks <==> c == checks[0] || c in checks[1..];
    }
  }

  function ReportOf(task: Task, checks: seq<Check>, parent: Option<Parent>): Report {
    if parent.Some? && parent.value.hasSession && parent.value.state == Active then
      ToParent(task.retry + 1, Failed(checks))
    else ToOverseer(task.retry + 1, checks)
  }

  /** Locks held at the end: a timeout or an aborted retry leaves them as the last session did. */
  function LockedAfter(session: nat -> Attempt, o: Outcome): bool {
    if o.Exhausted? then false
    else if o.how.GiveUp? then o.at > 1 && session(o.at - 1).locked
    else session(o.at).locked
  }

  // ---- what the attempts themselves say ---------------------------------------------------

  /** The session ended by itself with the task completed and, if there is a schema, valid output. */
  predicate Succeeds(task: Task, a: Attempt) {
    a.ending.Ended? && a.state == Completed && (task.outputSchema ==> a.ending.valid)
  }

  /** The pre-retry callback, which runs before every attempt but the first, raised. */
  predicate Aborts(task: Task, session: nat -> Attempt, k: nat) {
    task.preRetry && k > 1 && session(k).preRetryRaises
  }

  predicate GoesOn(task: Task, session: nat -> Attempt, k: nat) {
    !Aborts(task, session, k) && session(k).ending != TimedOut && !Succeeds(task, session(k))
  }

  /** Attempt `k` is made: all before it went on. */
  ghost predicate Reached(task: Task, session: nat -> Attempt, k: nat) {
    1 <= k <= task.retry + 1 && forall j :: 1 <= j < k ==> GoesOn(task, session, j)
  }

  ghost predicate EndsCompleted(task: Task, session: nat -> Attempt, k: nat) {
    Reached(task, session, k) && !Aborts(task, session, k) && Succeeds(task, session(k))
  }

  ghost predicate EndsCancelled(task: Task, session: nat -> Attempt, k: nat) {
    Reached(task, session, k) && !Aborts(task, session, k) && session(k).ending == TimedOut
  }

  ghost predicate EndsAborted(task: Task, session: nat -> Attempt, k: nat) {
    Reached(task, session, k) && Aborts(task, session, k)
  }

  ghost predicate NeverStops(task: Task, session: nat -> Attempt) {
    forall k :: 1 <= k <= task.retry + 1 ==> GoesOn(task, session, k)
  }

  lemma JudgedAlike(task: Task, session: nat -> Attempt, k: nat)
    ensures Judge(task, session, k).Retry? <==> GoesOn(task, session, k)
    ensures Judge(task, session, k).GiveUp? <==> Aborts(task, session, k)
    ensures Judge(task, session, k).Accept? <==> !Aborts(task, session, k) && Succeeds(task, session(k))
    ensures Judge(task, session, k).Timeout? <==> !Aborts(task, session, k) && session(k).ending == TimedOut
  {
  }

  /** How the task ends, attempt by attempt: at most one of the four cases applies, at one attempt. */
  lemma EndsAsAttemptsSay(task: Task, session: nat -> Attempt)
    ensures var o := OutcomeOf(task, session);
      && (FinalState(o) == Completed <==> exists k :: EndsCompleted(task, session, k))
      && (FinalState(o) == Cancelled <==> exists k :: EndsCancelled(task, session, k))
      && (FinalState(o) == Escalated <==>
            (exists k :: EndsAborted(task, session, k)) || NeverStops(task, session))
      && (o.Exhausted? <==> NeverStops(task, session))
      && (o.Stopped? ==> Reached(task, session, o.at) && !GoesOn(task, session, o.at))
  {
    var o := OutcomeOf(task, session);
    OutcomeIsFirstStop(task, session, 1);
    forall k ensures Retried(task, session, k) <==> GoesOn(task, session, k) { JudgedAlike(task, session, k); }
    if o.Stopped? {
      JudgedAlike(task, session, o.at);
      assert !Retried(task, session, o.at) && forall j :: 1 <= j < o.at ==> Retried(task, session, j);
      StopsOnce(task, session, o.at);
    } else {
      assert forall k :: 1 <= k <= task.retry + 1 ==> Retried(task, session, k);
      StopsNever(task, session);
    }
  }

  lemma StopsOnce(task: Task, session: nat -> Attempt, at: nat)
    requires Reached(task, session, at) && !GoesOn(task, session, at)
    ensures forall k :: EndsCompleted(task, session, k) <==> k == at && EndsCompleted(task, session, at)
    ensures forall k :: EndsCancelled(task, session, k) <==> k == at && EndsCancelled(task, session, at)
    ensures forall k :: EndsAborted(task, session, k) <==> k == at && EndsAborted(task, session, at)
    ensures EndsCompleted(task, session, at) || EndsCancelled(task, session, at) || EndsAborted(task, session, at)
    ensures !NeverStops(task, session)
  {
    forall k | Reached(task, session, k) && !GoesOn(task, session, k) ensures k == at {}
  }

  lemma StopsNever(task: Task, session: nat -> Attempt)
    requires NeverStops(task, session)
    ensures forall k ::
      !EndsCompleted(task, session, k) && !EndsCancelled(task, session, k) && !EndsAborted(task, session, k)
  {
    forall k | Reached(task, session, k) ensures GoesOn(task, session, k) {}
  }

  /** What a retried attempt tells the later ones, and the check result that it leaves. */
  lemma RetriedWith(task: Task, session: nat -> Attempt, k: nat)
    requires k > 0 && GoesOn(task, session, k)
    ensures |Priors(task, session, k)| == k
    ensures var a, error := session(k), Priors(task, session, k)[k - 1].error;
            var before, after := Checks(task, session, k - 1), Checks(task, session, k);
      && (a.ending.Raised? ==> error == Text(a.ending.text) && after == [Check(false, Text(a.ending.text))])
      && (a.ending.Ended? && a.state == Completed ==>
            error == OutputValidation(a.ending.text) && after == [Check(false, Text(a.ending.text))])
      && (a.ending.Ended? && a.state == PostcheckFailed ==>
            error == PostchecksFailed && after == [Check(false, PostchecksFailed)])
      && (a.ending.Ended? && a.state == PrecheckFailed ==>
            error == PrechecksFailed && after == [Check(false, PrechecksFailed)])
      && (a.ending.Ended? && a.state !in {Completed, PostcheckFailed, PrecheckFailed} ==>
            error == EndedInState(a.state) && after == before)
  {
    PriorsAreNumbered(task, session, k);
  }

  /** The result of the task, its locks and its report, as the attempts themselves say. */
  ghost predicate EndsAsSaid(task: Task, session: nat -> Attempt, parent: Option<Parent>,
                             state: TaskState, locked: bool, r: TaskResult, reports: seq<Report>) {
    && (state == Completed <==> exists k :: EndsCompleted(task, session, k))
    && (state == Cancelled <==> exists k :: EndsCancelled(task, session, k))
    && (state == Escalated <==> (exists k :: EndsAborted(task, session, k)) || NeverStops(task, session))
    && (state == Completed ==> r == TaskResult([Check(true, TaskCompleted)], false))
    && (state == Cancelled ==> r == TaskResult([Check(false, TaskTimedOut)], false))
    && (state == Escalated && !NeverStops(task, session) ==> r == TaskResult([Check(false, PreRetryAborted)], false))
    && (forall k :: EndsCompleted(task, session, k) || EndsCancelled(task, session, k) ==> locked == session(k).locked)
    && (forall k :: k > 1 && EndsAborted(task, session, k) ==> locked == session(k - 1).locked)
    && (!NeverStops(task, session) ==> reports == [])
    && (NeverStops(task, session) ==> r.escalated && !locked && IsReport(task, parent, r.checks, reports))
  }

  /** One report: to the parent if its session can still take it, or else to the Overseer. */
  ghost predicate IsReport(task: Task, parent: Option<Parent>, checks: seq<Check>, reports: seq<Report>) {
    |reports| == 1 && reports[0].attempts == task.retry + 1 &&
    if parent.Some? && parent.value.hasSession && parent.value.state == Active then
      reports[0].ToParent? && forall m :: m in reports[0].failed <==> Check(false, m) in checks
    else
      reports[0].ToOverseer? && reports[0].checks == checks
  }

  lemma SpecificationAsSaid(task: Task, session: nat -> Attempt, parent: Option<Parent>,
                            state: TaskState, locked: bool, r: TaskResult, reports: seq<Report>)
    requires var o := OutcomeOf(task, session);
      && state == FinalState(o) && locked == LockedAfter(session, o)
      && r.checks == FinalChecks(task, session, o) && (r.escalated <==> o.Exhausted?)
      && reports == if r.escalated then [ReportOf(task, r.checks, parent)] else []
    ensures EndsAsSaid(task, session, parent, state, locked, r, reports)
  {
    EndsAsAttemptsSay(task, session);
    FailedAre(r.checks);
    var o := OutcomeOf(task, session);
    if o.Stopped? {
      StopsOnce(task, session, o.at);
      JudgedAlike(task, session, o.at);
      OutcomeIsFirstStop(task, session, 1);
    } else {
      StopsNever(task, session);
    }
  }

  // ---- the loop -------------------------------------------------------------------------

  class AgentExecution {
    const task: Task
    var state: TaskState
    var locked: bool
    var started: seq<Record>
    var reports: seq<Report>

    constructor (task: Task)
      ensures this.task == task && state == Created && !locked && started == [] && reports == []
    {
      this.task, state, locked, started, reports := task, Created, false, [], [];
    }

    /** Runs one session and looks at the state in which it left the task. */
    method RunSession(run: Attempt, moreLeft: bool) returns (verdict: Verdict)
      modifies this`state, this`locked
      ensures verdict == JudgeSession(task, run) && locked == run.locked
      ensures state ==
        match verdict
        case Accept => Completed
        case Timeout => Cancelled
        case _ => if moreLeft then Created else run.state
    {
      state, locked := run.state, run.locked;
      match run.ending {
        case TimedOut =>
          state := Cancelled;
          return Timeout;
        case Raised(text) =>
          verdict := Retry(Text(text), Some([Check(false, Text(text))]));
        case Ended(valid, text) =>
          if state == Completed {
            if task.outputSchema && !valid {
              verdict := Retry(OutputValidation(text), Some([Check(false, Text(text))]));
            } else {
              return Accept;
            }
          } else if state == PostcheckFailed {
            verdict := Retry(PostchecksFailed, Some([Check(false, PostchecksFailed)]));
          } else if state == PrecheckFailed {
            verdict := Retry(PrechecksFailed, Some([Check(false, PrechecksFailed)]));
          } else {
            verdict := Retry(EndedInState(state), None);
          }
      }
      if moreLeft {
        state := Created;
      }
    }

    /** One attempt: it is recorded, then the pre-retry callback and the session run. */
    method MakeAttempt(attempt: nat, session: nat -> Attempt, prior: seq<Prior>) returns (verdict: Verdict)
      modifies this`state, this`locked, this`started
      ensures started == old(started) + [Record(attempt, old(state), prior)]
      ensures verdict == Judge(task, session, attempt)
      ensures locked == if verdict.GiveUp? then old(locked) else session(attempt).locked
      ensures !verdict.Retry? ==> state == FinalState(Stopped(attempt, verdict))
      ensures verdict.Retry? && attempt <= task.retry ==> state == Created
    {
      started := started + [Record(attempt, state, prior)];
      if attempt > 1 && task.preRetry {
        if session(attempt).preRetryRaises {
          state := Escalated;
          return GiveUp;
        }
      }
      verdict := RunSession(session(attempt), attempt < task.retry + 1);
    }

    method FailedMessages(checks: seq<Check>) returns (failed: seq<Message>)
      ensures failed == Failed(checks)
    {
      failed := [];
      for i := 0 to |checks|
        invariant failed + Failed(checks[i..]) == Failed(checks)
      {
        if !checks[i].passed {
          failed := failed + [checks[i].message];
        }
      }
    }

    /** The attempts are exhausted: release the locks and report to the parent or the Overseer. */
    method Escalate(checks: seq<Check>, parent: Option<Parent>) returns (r: TaskResult)
      modifies this`state, this`locked, this`reports
      ensures state == Escalated && !locked && r == TaskResult(checks, true)
      ensures reports == old(reports) + [ReportOf(task, checks, parent)]
    {
      state, locked := Escalated, false;
      if parent.Some? && parent.value.hasSession && parent.value.state == Active {
        var failed := FailedMessages(checks);
        reports := reports + [ToParent(task.retry + 1, failed)];
      } else {
        reports := reports + [ToOverseer(task.retry + 1, checks)];
      }
      return TaskResult(checks, true);
    }

    /** The attempts, up to the first that stops the loop; without one, the last check results. */
    method MakeAttempts(session: nat -> Attempt) returns (stopped: Option<Verdict>, checkResults: seq<Check>)
      requires state == Created && started == []
      modifies this`state, this`locked, this`started
      ensures |started| == AttemptsMade(task, OutcomeOf(task, session)) && Recorded(task, session, started)
      ensures stopped.None? ==> OutcomeOf(task, session).Exhausted?
      ensures stopped.Some? ==>
        && OutcomeOf(task, session) == Stopped(|started|, stopped.value)
        && state == FinalState(OutcomeOf(task, session)) && locked == LockedAfter(session, OutcomeOf(task, session))
      ensures stopped.None? ==> checkResults == FinalChecks(task, session, Exhausted)
    {
      checkResults := [];
      var priorAttempts: seq<Prior> := [];
      var attempt: nat := 1;
      while attempt <= task.retry + 1
        invariant 1 <= attempt && AfterAttempts(task, session, attempt - 1, started, priorAttempts, checkResults)
        invariant attempt <= task.retry + 1 ==> state == Created
        invariant attempt > 1 ==> locked == session(attempt - 1).locked
        decreases task.retry + 1 - attempt
      {
        ghost var recorded := started;
        var verdict := MakeAttempt(attempt, session, priorAttempts);
        NextAttempt(task, session, attempt, recorded, priorAttempts, checkResults);
        if !verdict.Retry? {
          return Some(verdict), checkResults;
        }
        priorAttempts := priorAttempts + [Prior(attempt, verdict.error)];
        if verdict.checks.Some? {
          checkResults := verdict.checks.value;
        }
        attempt := attempt + 1;
      }
      stopped := None;
    }

    method ExecuteAgentTask(session: nat -> Attempt, parent: Option<Parent>) returns (r: TaskResult)
      requires state == Created && started == [] && reports == []
      modifies this
      ensures |started| == AttemptsMade(task, OutcomeOf(task, session)) && Recorded(task, session, started)
      ensures state == FinalState(OutcomeOf(task, session))
      ensures locked == LockedAfter(session, OutcomeOf(task, session))
      ensures r.checks == FinalChecks(task, session, OutcomeOf(task, session))
      ensures r.escalated <==> OutcomeOf(task, session).Exhausted?
      ensures reports == if r.escalated then [ReportOf(task, r.checks, parent)] else []
      ensures EndsAsSaid(task, session, parent, state, locked, r, reports)
    {
      var stopped, checkResults := MakeAttempts(session);
      if stopped.Some? {
        r := TaskResult([LastCheck(stopped.value)], false);
      } else {
        r := Escalate(checkResults, parent);
      }
      SpecificationAsSaid(task, session, parent, state, locked, r, reports);
    }
  }

  // ---- what the loop promises -----------------------------------------------------------

  predicate Retried(task: Task, session: nat -> Attempt, k: nat) {
    Judge(task, session, k).Retry?
  }

  /** The loop ends at the first attempt that is not to be retried, or else is exhausted. */
  lemma {:induction false} OutcomeIsFirstStop(task: Task, session: nat -> Attempt, from: nat)
    ensures var o := OutcomeFrom(task, session, from);
      && (o.Exhausted? <==> forall k :: from <= k <= task.retry + 1 ==> Retried(task, session, k))
      && (!o.Exhausted? ==>
            && from <= o.at <= task.retry + 1
            && o.how == Judge(task, session, o.at) && !o.how.Retry?
            && forall k :: from <= k < o.at ==> Retried(task, session, k))
    decreases task.retry + 1 - from
  {
    if from <= task.retry + 1 && Retried(task, session, from) {
      OutcomeIsFirstStop(task, session, from + 1);
    }
  }

  lemma AtMostRetryPlusOne(task: Task, session: nat -> Attempt)
    ensures AttemptsMade(task, OutcomeOf(task, session)) <= MaxAttempts(task)
  {
    OutcomeIsFirstStop(task, session, 1);
  }

  /** Attempt `n + 1` is told of exactly `n` earlier attempts, numbered from 1. */
  lemma {:induction false} PriorsAreNumbered(task: Task, session: nat -> Attempt, n: nat)
    ensures |Priors(task, session, n)| == n
    ensures forall i :: 0 <= i < n ==> Priors(task, session, n)[i].attempt == i + 1
  {
    if n > 0 { PriorsAreNumbered(task, session, n - 1); }
  }

  predicate AllPassed(checks: seq<Check>) {
    forall i :: 0 <= i < |checks| ==> checks[i].passed
  }

  /** An attempt whose session just stopped in some other state, which records no check result. */
  predicate LeavesNoCheck(task: Task, session: nat -> Attempt, k: nat) {
    Judge(task, session, k).Retry? && Judge(task, session, k).checks.None?
  }

  lemma {:induction false} ChecksPassOnlyIfNone(task: Task, session: nat -> Attempt, n: nat)
    requires forall k :: 1 <= k <= n ==> Retried(task, session, k)
    ensures AllPassed(Checks(task, session, n)) <==> forall k :: 1 <= k <= n ==> LeavesNoCheck(task, session, k)
    ensures AllPassed(Checks(task, session, n)) ==> Checks(task, session, n) == []
  {
    if n > 0 {
      ChecksPassOnlyIfNone(task, session, n - 1);
      assert Retried(task, session, n);
      if !LeavesNoCheck(task, session, n) {
        assert !Checks(task, session, n)[0].passed;
      }
    }
  }

  /**
   "All checks passed" does not mean that the task completed: it also holds of a task that
   exhausts its attempts when every session just stopped in some other state, since then no
   check result was ever recorded. These are the only two ways.
   */
  lemma AllPassedExactly(task: Task, session: nat -> Attempt)
    ensures AllPassed(FinalChecks(task, session, OutcomeOf(task, session))) <==>
      || FinalState(OutcomeOf(task, session)) == Completed
      || (forall k :: 1 <= k <= task.retry + 1 ==> LeavesNoCheck(task, session, k))
  {
    OutcomeIsFirstStop(task, session, 1);
    var o := OutcomeOf(task, session);
    if o.Exhausted? {
      ChecksPassOnlyIfNone(task, session, MaxAttempts(task));
    } else {
      assert FinalChecks(task, session, o)[0].passed <==> o.how.Accept?;
      assert !LeavesNoCheck(task, session, o.at);
    }
  }

  /** A witness: one attempt, whose session leaves the task active. */
  lemma EscalatedYetAllPassed()
    ensures var task, session := Task(0, false, false), (k: nat) => Attempt(false, Active, true, Ended(true, ""));
      && FinalState(OutcomeOf(task, session)) == Escalated
      && AllPassed(FinalChecks(task, session, OutcomeOf(task, session)))
  {
    var task, session := Task(0, false, false), (k: nat) => Attempt(false, Active, true, Ended(true, ""));
    assert LeavesNoCheck(task, session, 1);
    AllPassedExactly(task, session);
  }
}
