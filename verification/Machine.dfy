/** One WorkloadDependency as a state machine: what a single reconcile decides from the stored status
    and from what it reads, and the status it leaves behind. */
module Machine {
  import opened Types
  import opened Workloads

  datatype Fetch = FetchError | NotFound | Found(w: Workload)

  /** The outcome of evaluating all dependencies. */
  datatype Verdict = EvalError | AllOk | NotOk

  /** Everything one reconcile reads besides the stored status. */
  datatype Input = Input(
    spec: Spec,
    paused: bool,
    dependent: Fetch,
    verdict: Verdict,
    patchOk: bool,
    now: int)

  datatype Requeue = After(delay: int) | AtOnce | OnError | Stop

  /** A request to write the status: the fields as held in memory, and the phase to enter. */
  datatype Put = Put(local: Status, phase: Phase)

  datatype Decision = Decision(write: Write, put: Option<Put>, requeue: Requeue)

  /** The status fields as setStatus first applies them to the object it holds. */
  function Enter(local: Status, phase: Phase, now: int): Status {
    local.(
      phase := phase,
      suspendedAt :=
        if phase != Suspended then None
        else if local.suspendedAt.Some? then local.suspendedAt
        else Some(now))
  }

  function Record(local: Status, phase: Phase, requeue: Requeue): Decision {
    Decision(NoWrite, Some(Put(local, phase)), requeue)
  }

  function Wait(requeue: Requeue): Decision {
    Decision(NoWrite, None, requeue)
  }

  const DEFAULT_REQUEUE := After(15 * SECOND)

  /** Bringing a workload to rest: nothing to do when it already is, otherwise remember the count that is overwritten.
      */
  function SuspendWrite(w: Workload): Write {
    if w.AtRest() then NoWrite
    else if w.CronJob? then Suspend(true)
    else Scale(0)
  }

  function Remember(s: Status, w: Workload): Status {
    if w.CronJob? || w.AtRest() then s else s.(saved := Some(w.GetReplicas()))
  }

  function RestoreWrite(s: Status, w: Workload): Write {
    if w.CronJob? then (if w.IsSuspended() then Suspend(false) else NoWrite)
    else if s.saved.None? || s.saved.value == 0 then NoWrite
    else Scale(s.saved.value)
  }

  lemma RestoreBringsBack(s: Status, w: Workload)
    ensures BroughtBack(s.saved, w, Apply(w, RestoreWrite(s, w)))
  {
  }

  /** Makes a write and then records a phase; a failed patch abandons the reconcile before the status write. */
  function WriteThen(write: Write, local: Status, phase: Phase, requeue: Requeue, patchOk: bool): Decision {
    if write != NoWrite && !patchOk then Wait(OnError)
    else Decision(write, Some(Put(local, phase)), requeue)
  }

  function OnDegraded(s: Status, w: Workload, i: Input): Decision {
    var window := DegradedWindow(i.spec.dependsOn);
    if s.degradedSince.None? then
      Record(s.(degradedSince := Some(i.now), healthySince := None), Degraded, After(window))
    else if i.now - s.degradedSince.value < window then
      Wait(After(window - (i.now - s.degradedSince.value) + SECOND))
    else
      WriteThen(SuspendWrite(w), Remember(s, w), Suspended, DEFAULT_REQUEUE, i.patchOk)
  }

  function OnSuspended(s: Status, w: Workload, i: Input): Decision {
    var cap := i.spec.maxSuspendDuration;
    if cap > 0 && s.suspendedAt.Some? then
      if i.now - s.suspendedAt.value >= cap then
        WriteThen(RestoreWrite(s, w), s.(saved := None, healthySince := None), Released, DEFAULT_REQUEUE, i.patchOk)
      else
        Wait(After(cap - (i.now - s.suspendedAt.value) + SECOND))
    else if i.spec.mode == Strict && (w.CronJob? || w.GetReplicas() > 0) then
      WriteThen(SuspendWrite(w), Remember(s, w), Suspended, DEFAULT_REQUEUE, i.patchOk)
    else
      Record(s, Suspended, DEFAULT_REQUEUE)
  }

  function OnHealthy(s: Status, w: Workload, i: Input): Decision {
    var cleared := s.(degradedSince := None);
    var window := RecoveryWindow(i.spec.dependsOn);
    if s.phase != Suspended then
      Record(cleared.(healthySince := None), Healthy, DEFAULT_REQUEUE)
    else if s.healthySince.None? then
      Record(cleared.(healthySince := Some(i.now)), Suspended, After(window))
    else if i.now - s.healthySince.value < window then
      Wait(After(window - (i.now - s.healthySince.value) + SECOND))
    else
      WriteThen(RestoreWrite(s, w), cleared.(saved := None, healthySince := None), Healthy, DEFAULT_REQUEUE, i.patchOk)
  }

  /** Strict and soft modes, once the dependent and every dependency have been read. */
  function Enforce(s: Status, w: Workload, i: Input): Decision {
    if i.verdict == AllOk then OnHealthy(s, w, i)
    else if s.phase == Released then Record(s, Released, After(30 * SECOND))
    else if s.phase == Suspended then OnSuspended(s, w, i)
    else OnDegraded(s, w, i)
  }

  /** The decision of one reconcile of an admitted WorkloadDependency that is not being deleted. */
  function Decide(s: Status, i: Input): Decision {
    if i.paused then Record(s, Paused, DEFAULT_REQUEUE)
    else match i.dependent
      case FetchError => Wait(OnError)
      case NotFound => Record(s, Unknown, DEFAULT_REQUEUE)
      case Found(w) =>
        if i.verdict == EvalError then Wait(OnError)
        else if i.verdict == NotOk && w.IsProgressing() then Record(s, Degraded, DEFAULT_REQUEUE)
        else if i.spec.mode == Observe then Record(s, if i.verdict == AllOk then Healthy else Observed, DEFAULT_REQUEUE)
        else if i.spec.mode == Gate then Record(s, if i.verdict == AllOk then Healthy else Degraded, DEFAULT_REQUEUE)
        else Enforce(s, w, i)
  }

  /** The stored status after the decision, when the status write goes through at the first attempt. */
  function Step(s: Status, i: Input): Status {
    var d := Decide(s, i);
    if d.put.None? then s else Enter(d.put.value.local, d.put.value.phase, i.now)
  }

  /** What handleDeletion writes before it removes the finalizer. */
  function DeletionWrite(s: Status, dependent: Fetch): Write {
    if s.phase == Suspended && s.saved.Some? && s.saved.value > 0 && dependent.Found?
    then RestoreWrite(s, dependent.w)
    else NoWrite
  }

  /** A reconcile that looked at every dependency in strict or soft mode. */
  predicate Active(i: Input) {
    !i.paused && i.dependent.Found? && i.verdict != EvalError && i.spec.mode in {Strict, Soft}
  }

  predicate SeesHealthy(i: Input) { Active(i) && i.verdict == AllOk }

  predicate SeesUnhealthy(i: Input) { Active(i) && i.verdict == NotOk && !i.dependent.w.IsProgressing() }

  /** A reconcile that could not read its dependent or one of the dependencies. */
  predicate ReadFails(i: Input) {
    !i.paused && (i.dependent.FetchError? || (i.dependent.Found? && i.verdict == EvalError))
  }

  /** A reconcile that records a phase without enforcing anything: paused, without its dependent, deferring to a rollout
      in flight, or in gate or observe mode. */
  predicate Interrupts(i: Input) {
    || i.paused
    || i.dependent.NotFound?
    || (i.dependent.Found? && i.verdict == NotOk && i.dependent.w.IsProgressing())
    || (i.dependent.Found? && i.verdict != EvalError && i.spec.mode in {Observe, Gate})
  }

  /** A reconcile does exactly one of four things. */
  lemma FourOutcomes(i: Input)
    ensures SeesHealthy(i) || SeesUnhealthy(i) || ReadFails(i) || Interrupts(i)
    ensures Interrupts(i) ==> !SeesHealthy(i) && !SeesUnhealthy(i) && !ReadFails(i)
    ensures ReadFails(i) ==> !SeesHealthy(i) && !SeesUnhealthy(i)
  {
    match i.spec.mode case Strict => case Soft => case Gate => case Observe =>
  }

  /** A reconcile of a plain run: strict or soft, not paused, everything read, no rollout in flight, patches accepted.
      */
  predicate Plain(i: Input) {
    Active(i) && !i.dependent.w.IsProgressing() && i.patchOk && i.dependent.w.Valid()
  }
}
