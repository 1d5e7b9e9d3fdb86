/** The four workload kinds klink reads and writes, as they stand on the API server. */
module Workloads {
  import opened Types

  datatype Kind = DeploymentKind | StatefulSetKind | CronJobKind | RolloutKind

  datatype Workload =
    | Deployment(replicas: Option<int>, ready: int)
    | StatefulSet(replicas: Option<int>, ready: int)
    | CronJob(suspend: Option<bool>)
    | Rollout(replicas: Option<int>, phase: string)
  {
    function Kind(): Kind {
      match this
      case Deployment(_, _) => DeploymentKind
      case StatefulSet(_, _) => StatefulSetKind
      case CronJob(_) => CronJobKind
      case Rollout(_, _) => RolloutKind
    }

    /** The desired count: 1 when absent, -1 for a CronJob. A Rollout stores an int64 that is narrowed. */
    function GetReplicas(): int {
      match this
      case Deployment(r, _) => if r.None? then 1 else r.value
      case StatefulSet(r, _) => if r.None? then 1 else r.value
      case CronJob(_) => -1
      case Rollout(r, _) => if r.None? then 1 else ToInt32(r.value)
    }

    predicate IsSuspended() {
      CronJob? && suspend.Some? && suspend.value
    }

    predicate IsProgressing() {
      Rollout? && phase == "Progressing"
    }

    /** A Rollout counts as a healthy dependency unless it is degraded or in a phase klink does not know. */
    predicate RolloutServes()
      requires Rollout?
    {
      phase == "Healthy" || phase == "Progressing" || phase == "Paused"
    }

    /** Nothing is running because of the desired count or the suspend flag. */
    predicate AtRest() {
      if CronJob? then IsSuspended() else GetReplicas() == 0
    }

    /** What API validation guarantees of a stored replica count. */
    predicate Valid() {
      CronJob? || replicas.None? || 0 <= replicas.value < 0x8000_0000
    }
  }

  /** Go's int32(x) of an int64: the low 32 bits read as two's complement. */
  function ToInt32(x: int): (r: int)
    ensures -0x8000_0000 <= r < 0x8000_0000
    ensures (x - r) % 0x1_0000_0000 == 0
    ensures -0x8000_0000 <= x < 0x8000_0000 ==> r == x
  {
    (x + 0x8000_0000) % 0x1_0000_0000 - 0x8000_0000
  }

  /** The kind switch of getWorkload: every unknown kind is looked up as a Deployment. */
  function KindOf(kind: string): Kind {
    if kind == "StatefulSet" then StatefulSetKind
    else if kind == "CronJob" then CronJobKind
    else if kind == "Rollout" then RolloutKind
    else DeploymentKind
  }

  /** A write klink can make to a workload. */
  datatype Write = NoWrite | Scale(n: int) | Suspend(b: bool)

  predicate ZeroWrite(w: Write) {
    w == Scale(0) || w == Suspend(true)
  }

  /** The workload after the API server applied a write. */
  function Apply(w: Workload, write: Write): Workload {
    match (w, write)
    case (Deployment(_, ready), Scale(n)) => Deployment(Some(n), ready)
    case (StatefulSet(_, ready), Scale(n)) => StatefulSet(Some(n), ready)
    case (Rollout(_, phase), Scale(n)) => Rollout(Some(n), phase)
    case (CronJob(_), Suspend(b)) => CronJob(Some(b))
    case _ => w
  }

  lemma KindTellsConstructor(w: Workload)
    ensures w.Kind() == DeploymentKind <==> w.Deployment?
    ensures w.Kind() == StatefulSetKind <==> w.StatefulSet?
    ensures w.Kind() == CronJobKind <==> w.CronJob?
    ensures w.Kind() == RolloutKind <==> w.Rollout?
  {
  }

  /** The workload is back: a CronJob is no longer suspended, a replica workload wants the saved count, and when none or
      zero was saved it is as it was. */
  predicate BroughtBack(saved: Option<int>, w: Workload, w': Workload) {
    if w.CronJob? then w' == CronJob(if w.suspend == Some(true) then Some(false) else w.suspend)
    else if saved.None? || saved == Some(0) then w' == w
    else w' == w.(replicas := saved)
  }
}
