/** The API types of a WorkloadDependency: spec, status and the values they range over.
    Times and durations are integers counting nanoseconds, as Go's time.Duration does. */
module Types {

  datatype Option<+T> = None | Some(value: T)

  const SECOND: int := 1_000_000_000

  datatype Phase = NoPhase | Healthy | Degraded | Suspended | Released | Paused | Observed | Unknown

  datatype Mode = Strict | Soft | Gate | Observe

  datatype WorkloadRef = WorkloadRef(kind: string, name: string, namespace: string)

  datatype HealthCondition = HealthCondition(minReadyPercent: int, window: int, recoveryWindow: int)

  datatype DependsOnEntry = DependsOnEntry(kind: string, name: string, namespace: string, condition: HealthCondition)

  datatype Spec = Spec(dependent: WorkloadRef, dependsOn: seq<DependsOnEntry>, maxSuspendDuration: int, mode: Mode)

  /** The status fields that drive behaviour. Conditions and messages are kept apart. */
  datatype Status = Status(
    phase: Phase,
    saved: Option<int>,
    degradedSince: Option<int>,
    suspendedAt: Option<int>,
    healthySince: Option<int>)

  const FRESH := Status(NoPhase, None, None, None, None)

  datatype NamespacedName = NamespacedName(namespace: string, name: string)

  /** A WorkloadDependency as the cycle check and the webhook list it. */
  datatype Item = Item(id: NamespacedName, spec: Spec)

  /** An empty namespace in a reference means the namespace of the WorkloadDependency itself. */
  function ResolveNamespace(namespace: string, default: string): string {
    if namespace == "" then default else namespace
  }

  /** The namespace a reference means: the one written, or that of the WorkloadDependency. */
  predicate Means(written: string, own: string, namespace: string) {
    if written != "" then namespace == written else namespace == own
  }

  /** The first positive window among the dependencies decides for all of them; 30s when there is none. */
  function DegradedWindow(deps: seq<DependsOnEntry>): (w: int)
    ensures w > 0
  {
    if deps == [] then 30 * SECOND
    else if deps[0].condition.window > 0 then deps[0].condition.window
    else DegradedWindow(deps[1..])
  }

  /** The first positive recovery window decides; 60s when there is none. */
  function RecoveryWindow(deps: seq<DependsOnEntry>): (w: int)
    ensures w > 0
  {
    if deps == [] then 60 * SECOND
    else if deps[0].condition.recoveryWindow > 0 then deps[0].condition.recoveryWindow
    else RecoveryWindow(deps[1..])
  }

  /** Only the first dependency with a positive window counts, however long the windows of the others are. */
  lemma {:induction false} FirstWindowDecides(deps: seq<DependsOnEntry>, i: nat)
    requires i < |deps| && deps[i].condition.window > 0
    requires forall j :: 0 <= j < i ==> deps[j].condition.window <= 0
    ensures DegradedWindow(deps) == deps[i].condition.window
    decreases i
  {
    if i > 0 {
      assert deps[0].condition.window <= 0;
      FirstWindowDecides(deps[1..], i - 1);
    }
  }

  /** Without any positive window the defaults apply: 30 seconds to suspend, 60 to restore. */
  lemma {:induction false} DefaultWindows(deps: seq<DependsOnEntry>)
    ensures (forall dep :: dep in deps ==> dep.condition.window <= 0) ==> DegradedWindow(deps) == 30_000_000_000
    ensures (forall dep :: dep in deps ==> dep.condition.recoveryWindow <= 0) ==>
      RecoveryWindow(deps) == 60_000_000_000
    decreases |deps|
  {
    if deps != [] {
      assert deps[0] in deps;
      DefaultWindows(deps[1..]);
    }
  }

  lemma {:induction false} FirstRecoveryWindowDecides(deps: seq<DependsOnEntry>, i: nat)
    requires i < |deps| && deps[i].condition.recoveryWindow > 0
    requires forall j :: 0 <= j < i ==> deps[j].condition.recoveryWindow <= 0
    ensures RecoveryWindow(deps) == deps[i].condition.recoveryWindow
    decreases i
  {
    if i > 0 {
      assert deps[0].condition.recoveryWindow <= 0;
      FirstRecoveryWindowDecides(deps[1..], i - 1);
    }
  }
}
