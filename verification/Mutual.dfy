/** Mutual dependencies at the level of workloads: when klink can hold a whole group at zero, and when it lets go again.
    */
module Mutual {
  import opened Types
  import opened Workloads
  import opened Machine
  import opened Runs
  import opened StatusWrites
  import opened Clusters
  import opened Projection
  import opened Deadlock

  // ---- without abandoned suspensions some member is never held

  /** klink owes the dependent of this object a replica count. */
  predicate Owing(c: Cluster, id: NamespacedName) {
    id in c.wds && c.wds[id].status.saved.Some?
  }

  /** Whatever is owed to a member is owed by a suspension that still stands. */
  ghost predicate Tracked(c: Cluster, g: Group) {
    forall id :: id in g && Owing(c, id) ==> SuspendedIn(c, id) && c.wds[id].finalizer
  }

  /** A reconcile that gives up a member's suspension without giving back its count. */
  ghost predicate Abandons(c: Cluster, g: Group, id: NamespacedName, now: int, f: Faults) {
    id in g && Live(c, id) && Owing(c, id) && Interrupts(InputFor(c, id, now, f))
  }

  lemma StepKeepsTracked(s: Status, i: Input)
    requires s.saved.Some? ==> s.phase == Suspended
    ensures (Step(s, i).saved.Some? ==> Step(s, i).phase == Suspended) <==> !(s.saved.Some? && Interrupts(i))
  {
  }

  lemma MemberReconcileTracked(c: Cluster, g: Group, id: NamespacedName, now: int, f: Faults)
    requires Tracked(c, g) && Reliable(f) && id in g && Live(c, id)
    ensures
      var after := Reconcile(c, id, now, f).0;
      (Owing(after, id) ==> SuspendedIn(after, id) && after.wds[id].finalizer) <==> !Abandons(c, g, id, now, f)
  {
    ReconcileIsStep(c, id, now, f);
    StepKeepsTracked(c.wds[id].status, InputFor(c, id, now, f));
  }

  lemma NewMemberTracked(c: Cluster, g: Group, id: NamespacedName, now: int, f: Faults)
    requires Tracked(c, g) && Reliable(f) && id in g && id in c.wds && (c.wds[id].deleting || !c.wds[id].finalizer)
    ensures
      var after := Reconcile(c, id, now, f).0;
      Owing(after, id) ==> SuspendedIn(after, id) && after.wds[id].finalizer
  {
    if !c.wds[id].deleting {
      UncontendedWriteIsExact(c.wds[id], c.wds[id], Unknown, now, f.turns);
    }
  }

  /** Exactly when a reconcile leaves a count owed without a suspension: if and only if it abandons one. */
  lemma ReconcileKeepsTrackedExactlyWhen(c: Cluster, g: Group, id: NamespacedName, now: int, f: Faults)
    requires Tracked(c, g) && Reliable(f)
    ensures Tracked(Reconcile(c, id, now, f).0, g) <==> !Abandons(c, g, id, now, f)
  {
    var after := Reconcile(c, id, now, f).0;
    if id in g && id in c.wds {
      if Live(c, id) { MemberReconcileTracked(c, g, id, now, f); } else { NewMemberTracked(c, g, id, now, f); }
    }
    forall m | m in g && m != id && Owing(after, m) ensures SuspendedIn(after, m) && after.wds[m].finalizer {
      ReconcileFrames(c, id, now, f, m);
    }
  }

  /** Others leave the status and the finalizer of members to klink while a count is saved. */
  ghost predicate TrackedStep(c: Cluster, e: Event, c': Cluster, g: Group) {
    match e
    case Klink(id, now, f) => !Abandons(c, g, id, now, f)
    case Environment => forall id :: id in g && Owing(c', id) ==>
      id in c.wds && c'.wds[id].status == c.wds[id].status && (c.wds[id].finalizer ==> c'.wds[id].finalizer)
  }

  ghost predicate TrackedRun(cs: seq<Cluster>, events: seq<Event>, g: Group) {
    && IsRun(cs, events, g)
    && forall k: nat :: k < |events| ==> TrackedAt(cs, events, g, k)
  }

  ghost predicate TrackedAt(cs: seq<Cluster>, events: seq<Event>, g: Group, k: nat)
    requires |cs| == |events| + 1 && k < |events|
  {
    TrackedStep(cs[k], events[k], cs[k + 1], g)
  }

  ghost predicate Untouched(c: Cluster, g: Group) {
    Typed(c) && Carries(c, g) && forall id :: id in g ==> !SuspendedIn(c, id) && !Owing(c, id)
  }

  lemma {:induction false} StaysTracked(cs: seq<Cluster>, events: seq<Event>, g: Group, k: nat)
    requires TrackedRun(cs, events, g) && k < |cs| && Untouched(cs[0], g)
    ensures Tracked(cs[k], g)
    decreases k
  {
    if k > 0 {
      StaysTracked(cs, events, g, k - 1);
      assert IsStep(cs[k - 1], events[k - 1], cs[k], g) && TrackedAt(cs, events, g, k - 1);
      match events[k - 1]
      case Klink(id, now, f) => ReconcileKeepsTrackedExactlyWhen(cs[k - 1], g, id, now, f);
      case Environment =>
    }
  }

  /** No mutual deadlock: over every run in which no suspension is abandoned, some member of a closed group is owed
      nothing. */
  lemma NeverAllHeld(cs: seq<Cluster>, events: seq<Event>, g: Group, k: nat)
    requires ClosedGroup(g) && TrackedRun(cs, events, g) && k < |cs| && Untouched(cs[0], g)
    ensures exists id :: id in g && !Owing(cs[k], id)
  {
    NeverAllSuspended(cs, events, g, k);
    StaysTracked(cs, events, g, k);
    var id :| id in g && !SuspendedIn(cs[k], id);
    assert !Owing(cs[k], id);
  }

  /** When moreover klink alone scales the members, some member runs with its original count at all times: the group is
      never at zero on all sides. */
  lemma NeverAllAtZero(cs: seq<Cluster>, events: seq<Event>, g: Group, originals: map<NamespacedName, int>, k: nat)
    requires ClosedGroup(g) && TrackedRun(cs, events, g) && k < |cs| && Untouched(cs[0], g) && originals.Keys == g.Keys
    requires forall id :: id in g ==>
      && 0 < originals[id] < 0x8000_0000
      && CountRun(cs, events, id, MemberKey(g, id)) && Accounted(cs[0], id, MemberKey(g, id), originals[id])
    ensures exists id :: id in g && MemberKey(g, id) in cs[k].workloads
                    && cs[k].workloads[MemberKey(g, id)].GetReplicas() == originals[id] > 0
  {
    NeverAllHeld(cs, events, g, k);
    var id :| id in g && !Owing(cs[k], id);
    CountIsConservedOnCluster(cs, events, id, MemberKey(g, id), originals[id], k);
  }

  // ---- a group that is Suspended on all sides

  /** Every member is Suspended and its dependent is held. */
  ghost predicate AllHeldSuspended(c: Cluster, g: Group) {
    Carries(c, g) && SuspendedAreHeld(c, g) && AllSuspended(c, g)
  }

  /** Every member sees all its dependencies as fine. */
  lemma AllSuspendedSeesHealthy(c: Cluster, g: Group, id: NamespacedName, now: int, f: Faults)
    requires ClosedGroup(g) && AllHeldSuspended(c, g) && id in g
    ensures SuspendedIn(c, id) && InputFor(c, id, now, f).verdict != NotOk
    ensures f.evaluate.None? ==> InputFor(c, id, now, f).verdict == AllOk
  {
    OthersSuspendedMeansOk(c, g, id);
  }

  /** The event is a reconcile of a Suspended member that writes its saved count back. */
  ghost predicate RestoresMember(c: Cluster, e: Event, c': Cluster, g: Group) {
    && e.Klink? && e.id in g && e.id in c.wds && e.id in c'.wds
    && c.wds[e.id].status.phase == Suspended && c'.wds[e.id].status.phase == Healthy
    && MemberKey(g, e.id) in c.workloads
    && var write := RestoreWrite(c.wds[e.id].status, c.workloads[MemberKey(g, e.id)]);
       c'.workloads == WriteWorkload(c, MemberKey(g, e.id), write).workloads
  }

  ghost predicate RestoresAt(cs: seq<Cluster>, events: seq<Event>, g: Group, k: nat)
    requires |cs| == |events| + 1 && k < |events|
  {
    RestoresMember(cs[k], events[k], cs[k + 1], g)
  }

  /** Member reconciles read and patch without failure; others, and the environment, leave members and their dependents
      alone. */
  ghost predicate HealingStep(c: Cluster, e: Event, c': Cluster, g: Group) {
    match e
    case Klink(x, now, f) =>
      && c' == Reconcile(c, x, now, f).0
      && (x in g && x in c.wds ==> Reliable(f) && Plain(InputFor(c, x, now, f)))
    case Environment => forall id :: id in g && id in c.wds && id in c'.wds ==>
      c'.wds[id].status == c.wds[id].status && (Held(c, MemberKey(g, id)) ==> Held(c', MemberKey(g, id)))
  }

  ghost predicate Present(c: Cluster, g: Group) {
    Carries(c, g) && forall id {:trigger Live(c, id)} :: id in g ==> Live(c, id)
  }

  ghost predicate HealingRun(cs: seq<Cluster>, events: seq<Event>, g: Group) {
    && |cs| == |events| + 1
    && (forall k {:trigger Present(cs[k], g)} :: 0 <= k < |cs| ==> Present(cs[k], g))
    && (forall k: nat :: k < |events| ==> HealsAt(cs, events, g, k))
  }

  ghost predicate HealsAt(cs: seq<Cluster>, events: seq<Event>, g: Group, k: nat)
    requires |cs| == |events| + 1 && k < |events|
  {
    HealingStep(cs[k], events[k], cs[k + 1], g)
  }

  lemma StepHealthyOut(s: Status, i: Input)
    requires SeesHealthy(i) && Plain(i) && s.phase == Suspended
    ensures Step(s, i).phase == Suspended ==> Decide(s, i).write == NoWrite
    ensures Step(s, i).phase != Suspended ==>
      Step(s, i).phase == Healthy && Decide(s, i).write == RestoreWrite(s, i.dependent.w)
  {
  }

  lemma MemberHealingStep(c: Cluster, g: Group, id: NamespacedName, now: int, f: Faults)
    requires ClosedGroup(g) && Present(c, g) && AllHeldSuspended(c, g) && id in g && Reliable(f)
    requires Plain(InputFor(c, id, now, f))
    ensures
      var c' := Reconcile(c, id, now, f).0;
      RestoresMember(c, Klink(id, now, f), c', g) || (SuspendedIn(c', id) && c'.workloads == c.workloads)
  {
    assert Live(c, id);
    AllSuspendedSeesHealthy(c, g, id, now, f);
    var i := InputFor(c, id, now, f);
    ReconcileIsStep(c, id, now, f);
    StepHealthyOut(c.wds[id].status, i);
  }

  /** The group stays Suspended as a whole until a member is restored. */
  lemma HealingStepHoldsOrRestores(c: Cluster, e: Event, c': Cluster, g: Group)
    requires ClosedGroup(g) && Present(c, g) && Present(c', g) && AllHeldSuspended(c, g) && HealingStep(c, e, c', g)
    ensures AllHeldSuspended(c', g) || RestoresMember(c, e, c', g)
  {
    if e.Klink? && e.id in g { MemberHealingStep(c, g, e.id, e.now, e.faults); }
    if !RestoresMember(c, e, c', g) {
      forall m | m in g ensures SuspendedIn(c', m) && Held(c', MemberKey(g, m)) {
        assert SuspendedIn(c, m) && Held(c, MemberKey(g, m)) && Live(c', m);
        if e.Klink? && e.id != m {
          ReconcileFrames(c, e.id, e.now, e.faults, m);
          assert e.id in c.wds && e.id in g ==> MemberKey(g, e.id) != MemberKey(g, m);
          OtherReconcileLeavesWorkload(c, e.id, e.now, e.faults, MemberKey(g, m));
        }
      }
    }
  }

  ghost predicate NoneRestored(cs: seq<Cluster>, events: seq<Event>, g: Group)
    requires |cs| == |events| + 1
  {
    forall k: nat :: k < |events| ==> !RestoresAt(cs, events, g, k)
  }

  lemma {:induction false} HeldUntilRestored(cs: seq<Cluster>, events: seq<Event>, g: Group, k: nat)
    requires ClosedGroup(g) && HealingRun(cs, events, g) && k < |cs| && AllHeldSuspended(cs[0], g)
    requires NoneRestored(cs, events, g)
    ensures AllHeldSuspended(cs[k], g)
    decreases k
  {
    if k > 0 {
      HeldUntilRestored(cs, events, g, k - 1);
      HeldAt(cs, events, g, k);
    }
  }

  lemma HeldAt(cs: seq<Cluster>, events: seq<Event>, g: Group, k: nat)
    requires ClosedGroup(g) && HealingRun(cs, events, g) && 0 < k < |cs| && AllHeldSuspended(cs[k - 1], g)
    requires NoneRestored(cs, events, g)
    ensures AllHeldSuspended(cs[k], g)
  {
    assert HealsAt(cs, events, g, k - 1) && !RestoresAt(cs, events, g, k - 1);
    HealingStepHoldsOrRestores(cs[k - 1], events[k - 1], cs[k], g);
  }

  /** So the machine of each member sees a stretch of a run. */
  lemma HealingRunIsAround(cs: seq<Cluster>, events: seq<Event>, g: Group, id: NamespacedName)
    requires HealingRun(cs, events, g) && id in g
    ensures RunAround(cs, events, id)
  {
    forall k | 0 <= k < |cs| ensures Live(cs[k], id) { assert Present(cs[k], g); }
    forall k: nat | k < |events| ensures AroundAt(cs, events, id, k) {
      assert HealsAt(cs, events, g, k);
    }
  }

  ghost predicate Healthful(i: Input, window: int) {
    Plain(i) && SeesHealthy(i) && RecoveryWindow(i.spec.dependsOn) == window
  }

  lemma MemberInputIsHealthful(c: Cluster, g: Group, id: NamespacedName, now: int, f: Faults)
    requires ClosedGroup(g) && AllHeldSuspended(c, g) && id in g && id in c.wds && Plain(InputFor(c, id, now, f))
    ensures Healthful(InputFor(c, id, now, f), RecoveryWindow(g[id].dependsOn))
  {
    AllSuspendedSeesHealthy(c, g, id, now, f);
  }

  lemma {:induction false} InputsAreHealthful(cs: seq<Cluster>, events: seq<Event>, g: Group, id: NamespacedName,
                                              k: nat)
    requires ClosedGroup(g) && HealingRun(cs, events, g) && id in g && RunAround(cs, events, id) && k <= |events|
    requires forall x {:trigger AllHeldSuspended(cs[x], g)} :: 0 <= x < k ==> AllHeldSuspended(cs[x], g)
    ensures forall i :: i in InputsOf(cs, events, id, k) ==> Healthful(i, RecoveryWindow(g[id].dependsOn))
    decreases k
  {
    if k > 0 {
      InputsAreHealthful(cs, events, g, id, k - 1);
      if events[k - 1].Klink? && events[k - 1].id == id {
        InputAtIsHealthful(cs, events, g, id, k - 1);
      }
    }
  }

  lemma InputAtIsHealthful(cs: seq<Cluster>, events: seq<Event>, g: Group, id: NamespacedName, k: nat)
    requires ClosedGroup(g) && HealingRun(cs, events, g) && id in g && k < |events| && AllHeldSuspended(cs[k], g)
    requires events[k].Klink? && events[k].id == id
    ensures id in cs[k].wds
    ensures Healthful(InputFor(cs[k], id, events[k].now, events[k].faults), RecoveryWindow(g[id].dependsOn))
  {
    assert HealsAt(cs, events, g, k) && Present(cs[k], g);
    MemberInputIsHealthful(cs[k], g, id, events[k].now, events[k].faults);
  }

  /** After reconcile m the recovery window is still open, and the next reconcile is due at most a second after its end.
      */
  ghost predicate RecoveryPending(r: Run, m: nat, window: int)
    requires r.Shaped() && m < |r.inputs|
  {
    && r.inputs[m].now < r.inputs[0].now + window
    && r.states[m + 1].phase == Suspended && r.states[m + 1].healthySince.Some?
    && r.states[m + 1].healthySince.value <= r.inputs[0].now
    && r.decisions[m].requeue.After?
    && r.inputs[m].now + r.decisions[m].requeue.delay <= r.inputs[0].now + window + SECOND
  }

  lemma StepHealthful(s: Status, i: Input, window: int)
    requires Healthful(i, window) && Step(s, i).phase == Suspended
    ensures s.phase == Suspended && Step(s, i).healthySince.Some? && Decide(s, i).requeue.After?
    ensures s.healthySince.None? ==> Step(s, i).healthySince == Some(i.now) && Decide(s, i).requeue.delay == window
    ensures s.healthySince.Some? ==>
      && Step(s, i).healthySince == s.healthySince && i.now < s.healthySince.value + window
      && i.now + Decide(s, i).requeue.delay == s.healthySince.value + window + SECOND
  {
  }

  lemma {:induction false} HealthfulStretch(r: Run, m: nat, window: int)
    requires r.Connected() && m < |r.inputs| && window > 0
    requires (forall x :: 0 <= x <= m ==> Healthful(r.inputs[x], window)) && r.Punctual(0, m)
    requires r.states[0].healthySince.Some? ==> r.states[0].healthySince.value <= r.inputs[0].now
    requires r.states[m + 1].phase == Suspended
    ensures RecoveryPending(r, m, window)
    decreases m
  {
    assert r.Follows(m) && Healthful(r.inputs[m], window);
    StepHealthful(r.states[m], r.inputs[m], window);
    if m > 0 {
      HealthfulStretch(r, m - 1, window);
      assert r.OnTime(m - 1);
    }
  }

  /** A group that is Suspended on all sides heals in time: as long as no member has been restored, every member's
      punctual reconciles, counted from the first one of the run, stay inside its recovery window, and the next one,
      which will restore it, is due at most a second after that window. */
  lemma AllSuspendedHeals(cs: seq<Cluster>, events: seq<Event>, g: Group, id: NamespacedName) returns (r: Run)
    requires ClosedGroup(g) && HealingRun(cs, events, g) && AllHeldSuspended(cs[0], g) && id in g
    ensures RunAround(cs, events, id) && r.Connected() && r.inputs == InputsOf(cs, events, id, |events|)
    ensures SuspendedIn(cs[0], id) && r.states[0] == cs[0].wds[id].status
    ensures
      && |r.inputs| > 0 && r.Punctual(0, |r.inputs| - 1)
      && (r.states[0].healthySince.Some? ==> r.states[0].healthySince.value <= r.inputs[0].now)
      ==> RecoveryPending(r, |r.inputs| - 1, RecoveryWindow(g[id].dependsOn)) || !NoneRestored(cs, events, g)
  {
    HealingRunIsAround(cs, events, g, id);
    r := ClusterRunProjects(cs, events, id, |events|);
    assert SuspendedIn(cs[0], id);
    if NoneRestored(cs, events, g) && |r.inputs| > 0 {
      forall x | 0 <= x < |cs| ensures AllHeldSuspended(cs[x], g) { HeldUntilRestored(cs, events, g, x); }
      InputsAreHealthful(cs, events, g, id, |events|);
      forall x | 0 <= x < |r.inputs| ensures Healthful(r.inputs[x], RecoveryWindow(g[id].dependsOn)) {
        assert r.inputs[x] in r.inputs;
      }
      assert AllHeldSuspended(cs[|events|], g) && SuspendedIn(cs[|events|], id);
      if r.Punctual(0, |r.inputs| - 1)
         && (r.states[0].healthySince.Some? ==> r.states[0].healthySince.value <= r.inputs[0].now) {
        HealthfulStretch(r, |r.inputs| - 1, RecoveryWindow(g[id].dependsOn));
      }
    }
  }
}
