/** The bounded pool of capture jobs (runCaptureJobs and firstCaptureError in
    internal/app/plan.go), under every interleaving of its goroutines. */
module CapturePool {
  import opened Wrappers

  /** An error, and whether errors.Is finds context.Canceled in it. */
  datatype Failure = Failure(canceled: bool, cause: int)

  /** What an adapter returns; None stands for success. */
  type Outcome = Option<Failure>

  /** Where the goroutine of a job stands. */
  datatype Stage = Waiting | Running | Reported | Notified | Finished {
    predicate HoldsSlot() { Running? || Reported? || Notified? }

    predicate HasOutcome() { Reported? || Notified? || Finished? }

    function Left(): nat {
      match this
      case Waiting => 4
      case Running => 3
      case Reported => 2
      case Notified => 1
      case Finished => 0
    }
  }

  /** `stopped` says that the caller's context was cancelled. */
  datatype Pool = Pool(stages: seq<Stage>, outcomes: seq<Option<Outcome>>, slots: nat, cancelled: bool, stopped: bool)

  datatype Action =
    | Acquire(job: nat)
    | GiveUp(job: nat, reason: Failure)
    | Report(job: nat, outcome: Outcome)
    | Notify(job: nat)
    | Release(job: nat)
    | Stop

  function Start(n: nat): Pool {
    Pool(seq(n, _ => Waiting), seq(n, _ => None), 0, false, false)
  }

  function At(s: Pool, job: nat, stage: Stage): Pool
    requires job < |s.stages|
  {
    s.(stages := s.stages[job := stage])
  }

  predicate Is(s: Pool, job: nat, stage: Stage) {
    job < |s.stages| == |s.outcomes| && s.stages[job] == stage
  }

  /** One atomic step; None if it is not enabled. A job that waits may take a slot
      even after a cancellation, since select chooses freely. */
  function Step(concurrency: nat, s: Pool, a: Action): Option<Pool> {
    match a
    case Acquire(job) =>
      if Is(s, job, Waiting) && s.slots < concurrency then Some(At(s, job, Running).(slots := s.slots + 1)) else None
    case GiveUp(job, reason) =>
      if Is(s, job, Waiting) && s.cancelled && (s.stopped || reason.canceled)
      then Some(At(s, job, Finished).(outcomes := s.outcomes[job := Some(Some(reason))])) else None
    case Report(job, outcome) =>
      if Is(s, job, Running) then Some(At(s, job, Reported).(outcomes := s.outcomes[job := Some(outcome)])) else None
    case Notify(job) =>
      if Is(s, job, Reported)
      then Some(At(s, job, Notified).(cancelled := s.cancelled || s.outcomes[job] != Some(None))) else None
    case Release(job) =>
      if Is(s, job, Notified) && s.slots > 0 then Some(At(s, job, Finished).(slots := s.slots - 1)) else None
    case Stop => Some(s.(cancelled := true, stopped := true))
  }

  /** The state after a schedule, if every step of it is enabled. */
  function Exec(concurrency: nat, s: Pool, schedule: seq<Action>): Option<Pool> {
    if schedule == [] then Some(s)
    else
      var before := Exec(concurrency, s, schedule[..|schedule| - 1]);
      if before.None? then None else Step(concurrency, before.value, schedule[|schedule| - 1])
  }

  function Busy(stages: seq<Stage>): nat {
    if stages == [] then 0 else (if stages[0].HoldsSlot() then 1 else 0) + Busy(stages[1..])
  }

  function StepsLeft(stages: seq<Stage>): nat {
    if stages == [] then 0 else stages[0].Left() + StepsLeft(stages[1..])
  }

  /** The slots are exactly the jobs at work, and a job has an outcome exactly once
      it has reported or given up. */
  ghost predicate Ok(concurrency: nat, s: Pool) {
    && |s.stages| == |s.outcomes| && s.slots == Busy(s.stages) <= concurrency
    && forall i | 0 <= i < |s.stages| :: s.outcomes[i].Some? <==> s.stages[i].HasOutcome()
  }

  lemma {:induction false} BusyUpdate(stages: seq<Stage>, i: nat, stage: Stage)
    requires i < |stages|
    ensures Busy(stages[i := stage]) ==
            Busy(stages) - (if stages[i].HoldsSlot() then 1 else 0) + (if stage.HoldsSlot() then 1 else 0)
    ensures StepsLeft(stages[i := stage]) == StepsLeft(stages) - stages[i].Left() + stage.Left()
  {
    if i == 0 {
      assert stages[0 := stage][1..] == stages[1..];
    } else {
      assert stages[i := stage][1..] == stages[1..][i - 1 := stage];
      BusyUpdate(stages[1..], i - 1, stage);
    }
  }

  lemma {:induction false} BusyPositive(stages: seq<Stage>, i: nat)
    requires i < |stages| && stages[i].HoldsSlot()
    ensures Busy(stages) > 0
  {
    if i > 0 {
      BusyPositive(stages[1..], i - 1);
    }
  }

  lemma {:induction false} BusyJob(stages: seq<Stage>) returns (i: nat)
    requires Busy(stages) > 0
    ensures i < |stages| && stages[i].HoldsSlot()
  {
    if stages[0].HoldsSlot() {
      i := 0;
    } else {
      i := BusyJob(stages[1..]);
      i := i + 1;
    }
  }

  lemma {:induction false} NoneBusy(n: nat)
    ensures Busy(Start(n).stages) == 0 && StepsLeft(Start(n).stages) == 4 * n
  {
    if n > 0 {
      NoneBusy(n - 1);
      assert Start(n).stages[1..] == Start(n - 1).stages;
    }
  }

  lemma StepKeeps(concurrency: nat, s: Pool, a: Action)
    requires Ok(concurrency, s) && Step(concurrency, s, a).Some?
    ensures Ok(concurrency, Step(concurrency, s, a).value)
    ensures |Step(concurrency, s, a).value.stages| == |s.stages|
    ensures !a.Stop? ==> StepsLeft(Step(concurrency, s, a).value.stages) < StepsLeft(s.stages)
    ensures a.Stop? ==> StepsLeft(Step(concurrency, s, a).value.stages) == StepsLeft(s.stages)
  {
    if !a.Stop? {
      BusyUpdate(s.stages, a.job, Step(concurrency, s, a).value.stages[a.job]);
    }
  }

  /** An outcome slot is written by its own job, and only once. */
  lemma StepWrites(concurrency: nat, s: Pool, a: Action, i: nat)
    requires Ok(concurrency, s) && Step(concurrency, s, a).Some? && i < |s.outcomes|
    ensures var t := Step(concurrency, s, a).value;
            && |t.outcomes| == |s.outcomes|
            && (s.outcomes[i].Some? ==> t.outcomes[i] == s.outcomes[i])
            && (t.outcomes[i] != s.outcomes[i] ==> !a.Stop? && a.job == i)
  {
  }

  lemma ExecSnoc(concurrency: nat, s: Pool, front: seq<Action>, last: Action)
    ensures Exec(concurrency, s, front + [last]) ==
            if Exec(concurrency, s, front).None? then None
            else Step(concurrency, Exec(concurrency, s, front).value, last)
  {
    assert (front + [last])[..|front|] == front;
  }

  /** Under every interleaving at most `concurrency` adapters run at once. */
  lemma {:induction false} NeverTooMany(concurrency: nat, n: nat, schedule: seq<Action>)
    requires Exec(concurrency, Start(n), schedule).Some?
    ensures Ok(concurrency, Exec(concurrency, Start(n), schedule).value)
    ensures |Exec(concurrency, Start(n), schedule).value.stages| == n
    decreases |schedule|
  {
    if schedule == [] {
      NoneBusy(n);
    } else {
      var front, last := schedule[..|schedule| - 1], schedule[|schedule| - 1];
      assert schedule == front + [last];
      ExecSnoc(concurrency, Start(n), front, last);
      NeverTooMany(concurrency, n, front);
      StepKeeps(concurrency, Exec(concurrency, Start(n), front).value, last);
    }
  }

  /** Whatever happens later, an outcome stays as its job wrote it. */
  lemma {:induction false} OutcomesStay(concurrency: nat, n: nat, front: seq<Action>, rest: seq<Action>, i: nat)
    requires Exec(concurrency, Start(n), front + rest).Some? && i < n
    ensures Exec(concurrency, Start(n), front).Some?
    ensures var s, t := Exec(concurrency, Start(n), front).value, Exec(concurrency, Start(n), front + rest).value;
            && |s.outcomes| == |t.outcomes| == n && (s.outcomes[i].Some? ==> t.outcomes[i] == s.outcomes[i])
    decreases |rest|
  {
    if rest == [] {
      assert front + rest == front;
      NeverTooMany(concurrency, n, front);
    } else {
      var shorter, last := rest[..|rest| - 1], rest[|rest| - 1];
      assert front + rest == (front + shorter) + [last];
      ExecSnoc(concurrency, Start(n), front + shorter, last);
      OutcomesStay(concurrency, n, front, shorter, i);
      NeverTooMany(concurrency, n, front + shorter);
      StepWrites(concurrency, Exec(concurrency, Start(n), front + shorter).value, last, i);
    }
  }

  /** Every job that has failed and told so, or given up, has found or made the pool
      cancelled. */
  ghost predicate Told(s: Pool) {
    forall i | 0 <= i < |s.stages| && (s.stages[i].Notified? || s.stages[i].Finished?) ::
      i < |s.outcomes| && s.outcomes[i].Some? && (s.outcomes[i].value.Some? ==> s.cancelled)
  }

  lemma StepTells(concurrency: nat, s: Pool, a: Action)
    requires Ok(concurrency, s) && Told(s) && Step(concurrency, s, a).Some?
    ensures Told(Step(concurrency, s, a).value)
  {
  }

  /** Under every interleaving, once a job that failed has told the others, the pool is
      cancelled; and no job gives up before. */
  lemma {:induction false} FailureCancels(concurrency: nat, n: nat, schedule: seq<Action>)
    requires Exec(concurrency, Start(n), schedule).Some?
    ensures Told(Exec(concurrency, Start(n), schedule).value)
    decreases |schedule|
  {
    if schedule != [] {
      var front, last := schedule[..|schedule| - 1], schedule[|schedule| - 1];
      assert schedule == front + [last];
      ExecSnoc(concurrency, Start(n), front, last);
      FailureCancels(concurrency, n, front);
      NeverTooMany(concurrency, n, front);
      hide Ok, Told, Step;
      StepTells(concurrency, Exec(concurrency, Start(n), front).value, last);
    }
  }

  // --------------------------------------------------------- wg.Wait returns

  predicate AllFinished(s: Pool) {
    forall i | 0 <= i < |s.stages| :: s.stages[i] == Finished
  }

  /** The pool cannot get stuck: until all jobs are finished, one can move. */
  lemma Progress(concurrency: nat, s: Pool) returns (a: Action)
    requires concurrency > 0 && Ok(concurrency, s) && !AllFinished(s)
    ensures !a.Stop? && Step(concurrency, s, a).Some?
  {
    if s.slots > 0 {
      var i := BusyJob(s.stages);
      a := match s.stages[i] case Running => Report(i, None) case Reported => Notify(i) case _ => Release(i);
    } else {
      var i :| 0 <= i < |s.stages| && s.stages[i] != Finished;
      if s.stages[i].HoldsSlot() {
        BusyPositive(s.stages, i);
      }
      a := Acquire(i);
    }
  }

  function Moves(schedule: seq<Action>): nat {
    if schedule == [] then 0
    else Moves(schedule[..|schedule| - 1]) + if schedule[|schedule| - 1].Stop? then 0 else 1
  }

  /** Every run is finite: each job makes at most four steps. */
  lemma {:induction false} RunsAreFinite(concurrency: nat, n: nat, schedule: seq<Action>)
    requires Exec(concurrency, Start(n), schedule).Some?
    ensures Moves(schedule) + StepsLeft(Exec(concurrency, Start(n), schedule).value.stages) <= 4 * n
    decreases |schedule|
  {
    if schedule == [] {
      NoneBusy(n);
    } else {
      var front, last := schedule[..|schedule| - 1], schedule[|schedule| - 1];
      assert schedule == front + [last];
      ExecSnoc(concurrency, Start(n), front, last);
      RunsAreFinite(concurrency, n, front);
      NeverTooMany(concurrency, n, front);
      StepKeeps(concurrency, Exec(concurrency, Start(n), front).value, last);
    }
  }

  // -------------------------------------------------------- the error reported

  function Outcomes(s: Pool): (r: seq<Outcome>)
    ensures |r| == |s.outcomes|
  {
    seq(|s.outcomes|, i requires 0 <= i < |s.outcomes| => if s.outcomes[i].Some? then s.outcomes[i].value else None)
  }

  /** firstCaptureError: no error exactly if every capture succeeded; otherwise the
      first that is no cancellation, or the first of all if there is no such. */
  method FirstCaptureError(outcomes: seq<Outcome>) returns (error: Option<Failure>, ghost at: nat)
    ensures error.None? <==> forall i | 0 <= i < |outcomes| :: outcomes[i].None?
    ensures error.Some? ==> at < |outcomes| && outcomes[at] == error
    ensures error.Some? && !error.value.canceled ==>
              forall i | 0 <= i < at :: outcomes[i].None? || outcomes[i].value.canceled
    ensures error.Some? && error.value.canceled ==>
              && (forall i | 0 <= i < at :: outcomes[i].None?)
              && (forall i | 0 <= i < |outcomes| && outcomes[i].Some? :: outcomes[i].value.canceled)
  {
    error, at := None, 0;
    for i := 0 to |outcomes|
      invariant error.None? <==> forall k | 0 <= k < i :: outcomes[k].None?
      invariant error.Some? ==> at < i && outcomes[at] == error
      invariant error.Some? && !error.value.canceled ==>
                  forall k | 0 <= k < at :: outcomes[k].None? || outcomes[k].value.canceled
      invariant error.Some? && error.value.canceled ==>
                  && (forall k | 0 <= k < at :: outcomes[k].None?)
                  && (forall k | 0 <= k < i && outcomes[k].Some? :: outcomes[k].value.canceled)
    {
      if outcomes[i].None? {
        continue;
      }
      if error.None? || (error.value.canceled && !outcomes[i].value.canceled) {
        error, at := outcomes[i], i;
      }
    }
  }

  /** Adapters report a cancellation only after there was one. */
  ghost predicate Obedient(concurrency: nat, n: nat, schedule: seq<Action>) {
    forall k | 0 <= k < |schedule| && schedule[k].Report? && schedule[k].outcome.Some?
        && schedule[k].outcome.value.canceled ::
      var s := Exec(concurrency, Start(n), schedule[..k]); s.Some? ==> s.value.cancelled
  }

  /** Some job has failed for a reason of its own. */
  ghost predicate Concrete(s: Pool) {
    exists i :: 0 <= i < |s.outcomes| && OwnFailure(s.outcomes[i])
  }

  predicate OwnFailure(o: Option<Outcome>) {
    o.Some? && o.value.Some? && !o.value.value.canceled
  }

  ghost predicate Caused(s: Pool) {
    && (s.cancelled ==> s.stopped || Concrete(s))
    && (!s.cancelled ==>
          forall i | 0 <= i < |s.outcomes| && s.outcomes[i].Some? && s.outcomes[i].value.Some? ::
            OwnFailure(s.outcomes[i]))
  }

  lemma StepCaused(concurrency: nat, s: Pool, a: Action)
    requires Ok(concurrency, s) && Caused(s) && Step(concurrency, s, a).Some?
    requires a.Report? && a.outcome.Some? && a.outcome.value.canceled ==> s.cancelled
    ensures Caused(Step(concurrency, s, a).value)
  {
    var t := Step(concurrency, s, a).value;
    if a.Notify? && s.outcomes[a.job] != Some(None) && !s.cancelled {
      assert OwnFailure(s.outcomes[a.job]);
    }
    if Concrete(s) {
      var i :| 0 <= i < |s.outcomes| && OwnFailure(s.outcomes[i]);
      StepWrites(concurrency, s, a, i);
      assert OwnFailure(t.outcomes[i]);
    }
  }

  lemma {:induction false} AlwaysCaused(concurrency: nat, n: nat, schedule: seq<Action>)
    requires Exec(concurrency, Start(n), schedule).Some? && Obedient(concurrency, n, schedule)
    ensures Caused(Exec(concurrency, Start(n), schedule).value)
    decreases |schedule|
  {
    if schedule != [] {
      var front, last := schedule[..|schedule| - 1], schedule[|schedule| - 1];
      assert schedule == front + [last] && schedule[..|schedule| - 1] == front;
      ExecSnoc(concurrency, Start(n), front, last);
      forall k | 0 <= k < |front| ensures front[k] == schedule[k] && front[..k] == schedule[..k] {}
      AlwaysCaused(concurrency, n, front);
      NeverTooMany(concurrency, n, front);
      StepCaused(concurrency, Exec(concurrency, Start(n), front).value, last);
    }
  }

  /** Once all jobs are finished, and unless the caller cancelled, a failure has a
      cause: if any capture failed, one failed for a reason of its own, and that is
      what firstCaptureError prefers over the cancellations it induced. */
  lemma FailureHasCause(concurrency: nat, n: nat, schedule: seq<Action>, i: nat)
    requires Exec(concurrency, Start(n), schedule).Some? && Obedient(concurrency, n, schedule)
    requires var s := Exec(concurrency, Start(n), schedule).value;
             !s.stopped && AllFinished(s) && i < |s.outcomes| && Outcomes(s)[i].Some?
    ensures Concrete(Exec(concurrency, Start(n), schedule).value)
  {
    var s := Exec(concurrency, Start(n), schedule).value;
    NeverTooMany(concurrency, n, schedule);
    AlwaysCaused(concurrency, n, schedule);
    if !s.cancelled {
      assert OwnFailure(s.outcomes[i]);
    }
  }
}
