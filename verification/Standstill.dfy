/** Groups of WorkloadDependencies that are at zero on all sides: which of them klink can bring back, and which stand
    still. */
module Standstill {
  import opened Types
  import opened Workloads
  import opened Machine
  import opened Runs
  import opened StatusWrites
  import opened Clusters
  import opened Projection
  import opened Deadlock

  ghost predicate DependsOnMember(g: Group, a: NamespacedName, b: NamespacedName)
    requires a in g && b in g
  {
    exists dep :: dep in g[a].dependsOn && DependencyKey(dep, a.namespace) == MemberKey(g, b)
  }

  /** The members on whose dependents a member depends. */
  ghost function Needed(g: Group, a: NamespacedName): set<NamespacedName>
    requires a in g
  {
    set b | b in g && DependsOnMember(g, a, b)
  }

  lemma NotItsOwnNeed(g: Group, a: NamespacedName)
    requires ClosedGroup(g) && a in g
    ensures a !in Needed(g, a)
  {
    forall dep | dep in g[a].dependsOn ensures DependencyKey(dep, a.namespace) != MemberKey(g, a) {
      assert ProvidedByOther(g, a, dep);
    }
  }

  // ---- a group at zero

  /** The member is admitted, enforcing and uncapped, its dependent is at zero, and its original count is saved. */
  predicate AtZero(c: Cluster, g: Group, id: NamespacedName)
    requires id in g
  {
    && Live(c, id) && !c.wds[id].paused && c.wds[id].spec.mode in {Strict, Soft}
    && c.wds[id].spec.maxSuspendDuration <= 0
    && c.wds[id].status.saved.Some? && 0 < c.wds[id].status.saved.value < 0x8000_0000
    && WellFormed(c.wds[id].status)
    && MemberKey(g, id).kind in {DeploymentKind, StatefulSetKind} && Held(c, MemberKey(g, id))
  }

  /** No other object has a dependent of the same namespace and name, of whatever kind. */
  ghost predicate OwnName(c: Cluster, id: NamespacedName)
    requires id in c.wds
  {
    forall other :: other in c.wds && other != id ==>
      DependentName(c.wds[other].spec, other.namespace) != DependentName(c.wds[id].spec, id.namespace)
  }

  ghost predicate AllAtZero(c: Cluster, g: Group) {
    Typed(c) && Carries(c, g) && forall id {:trigger AtZero(c, g, id)} :: id in g ==> AtZero(c, g, id) && OwnName(c, id)
  }

  /** The members that are not Suspended. */
  ghost function Loose(c: Cluster, g: Group): set<NamespacedName> {
    set id | id in g && !SuspendedIn(c, id)
  }

  /** A member at zero that is not Suspended stands in the way of everybody who depends on it. */
  lemma NobodySuspendsIt(c: Cluster, g: Group, a: NamespacedName, b: NamespacedName)
    requires AllAtZero(c, g) && a in g && b in g && DependsOnMember(g, a, b) && !SuspendedIn(c, b)
    ensures a in c.wds && exists dep :: dep in c.wds[a].spec.dependsOn && !DependencyOk(c, dep, a.namespace)
  {
    assert AtZero(c, g, a) && AtZero(c, g, b) && OwnName(c, b);
    var dep :| dep in g[a].dependsOn && DependencyKey(dep, a.namespace) == MemberKey(g, b);
    var key := MemberKey(g, b);
    var name := NamespacedName(key.namespace, key.name);
    assert DependentName(c.wds[b].spec, b.namespace) == name;
    assert !SuspendedByKlink(c, name);
    assert !DependencyOk(c, dep, a.namespace);
  }

  lemma NothingLooseIsOk(c: Cluster, g: Group, id: NamespacedName, dep: DependsOnEntry)
    requires ClosedGroup(g) && AllAtZero(c, g) && id in g && Needed(g, id) * Loose(c, g) == {} && dep in g[id].dependsOn
    ensures DependencyOk(c, dep, id.namespace)
  {
    assert ProvidedByOther(g, id, dep);
    var b :| b in g && b != id && MemberKey(g, b) == DependencyKey(dep, id.namespace);
    assert DependsOnMember(g, id, b);
    assert b in Needed(g, id);
    assert b !in Needed(g, id) * Loose(c, g);
    assert AtZero(c, g, b);
    HeldDependencyIsOk(c, g, id, dep, b);
  }

  /** In a group at zero, a member sees its dependencies as fine exactly when everybody it needs is Suspended. */
  lemma SeesOkExactlyWhen(c: Cluster, g: Group, id: NamespacedName, now: int, f: Faults)
    requires ClosedGroup(g) && AllAtZero(c, g) && id in g
    ensures id in c.wds && InputFor(c, id, now, f).verdict !=
      if Needed(g, id) * Loose(c, g) == {} then NotOk else AllOk
  {
    assert AtZero(c, g, id);
    if Needed(g, id) * Loose(c, g) == {} {
      forall dep | dep in c.wds[id].spec.dependsOn ensures DependencyOk(c, dep, id.namespace) {
        NothingLooseIsOk(c, g, id, dep);
      }
    } else {
      var b :| b in Needed(g, id) * Loose(c, g);
      NobodySuspendsIt(c, g, id, b);
    }
  }

  lemma AtZeroInput(c: Cluster, g: Group, id: NamespacedName, now: int, f: Faults)
    requires id in g && AtZero(c, g, id) && c.wds[id].spec.dependent == g[id].dependent
    ensures
      var i := InputFor(c, id, now, f);
      && !i.paused && i.spec.mode in {Strict, Soft} && i.spec.maxSuspendDuration <= 0 && i.patchOk == !f.patch
      && i.now == now
      && i.dependent == if f.dependent then FetchError else Found(c.workloads[MemberKey(g, id)])
  {
  }

  /** What a member of a group at zero reads, unless reading fails. */
  predicate ReadsAtZero(i: Input) {
    && !i.paused && i.spec.mode in {Strict, Soft} && i.spec.maxSuspendDuration <= 0
    && (i.dependent.FetchError?
        || (i.dependent.Found? && i.dependent.w.AtRest() && (i.dependent.w.Deployment? || i.dependent.w.StatefulSet?)))
  }

  lemma MemberInput(c: Cluster, g: Group, id: NamespacedName, now: int, f: Faults)
    requires ClosedGroup(g) && AllAtZero(c, g) && id in g
    ensures Live(c, id) && WellFormed(c.wds[id].status) && c.wds[id].status.saved.Some?
    ensures
      var i := InputFor(c, id, now, f);
      && ReadsAtZero(i) && i.patchOk == !f.patch && i.now == now && i.spec == c.wds[id].spec
      && i.verdict != (if Needed(g, id) * Loose(c, g) == {} then NotOk else AllOk)
      && (f == CALM ==> i.verdict != EvalError && i.dependent.Found?)
  {
    assert AtZero(c, g, id);
    AtZeroInput(c, g, id, now, f);
    SeesOkExactlyWhen(c, g, id, now, f);
  }

  lemma StepAtZero(s: Status, i: Input)
    requires ReadsAtZero(i) && WellFormed(s) && s.saved.Some? && !(s.phase == Suspended && i.verdict == AllOk)
    ensures Decide(s, i).write == NoWrite && Step(s, i).saved == s.saved && WellFormed(Step(s, i))
    ensures s.phase == Suspended ==> Step(s, i).phase == Suspended
    ensures Step(s, i).phase == Suspended && s.phase != Suspended ==> i.verdict == NotOk
  {
  }

  /** Where a run stands: the group is at zero, and these members are not Suspended. */
  ghost predicate StandsAt(c: Cluster, g: Group, loose: set<NamespacedName>) {
    AllAtZero(c, g) && Loose(c, g) == loose
  }

  /** A reconcile of id that writes no workload, keeps the saved count and leaves the status s. */
  ghost predicate Rests(c: Cluster, id: NamespacedName, now: int, f: Faults, s: Status) {
    && Live(c, id) && Reliable(f) && s.saved == c.wds[id].status.saved && WellFormed(s)
    && Step(c.wds[id].status, InputFor(c, id, now, f)) == s
    && Decide(c.wds[id].status, InputFor(c, id, now, f)).write == NoWrite
  }

  /** Such a reconcile of a member leaves the group at zero. */
  lemma StaysAtZero(c: Cluster, g: Group, id: NamespacedName, now: int, f: Faults, s: Status)
    requires AllAtZero(c, g) && id in g && Rests(c, id, now, f, s)
    ensures
      var c' := Reconcile(c, id, now, f).0;
      && Live(c', id) && c'.wds[id].status == s && c'.wds[id].spec == c.wds[id].spec
      && StandsAt(c', g, if s.phase == Suspended then Loose(c, g) - {id} else Loose(c, g) + {id})
  {
    var c' := Reconcile(c, id, now, f).0;
    ReconcileIsStep(c, id, now, f);
    assert ChangesOnly(c, c', id, NoWrite);
    ChangesKeepCarried(c, c', g, id, NoWrite);
    assert AtZero(c, g, id) && c'.workloads == c.workloads;
    forall m | m in g ensures AtZero(c', g, m) && OwnName(c', m) {
      assert AtZero(c, g, m) && OwnName(c, m);
    }
    LooseAfter(c, c', g, id);
  }

  lemma LooseAfter(c: Cluster, c': Cluster, g: Group, id: NamespacedName)
    requires id in g && ChangesOnly(c, c', id, NoWrite)
    ensures Loose(c', g) == if SuspendedIn(c', id) then Loose(c, g) - {id} else Loose(c, g) + {id}
  {
    forall m | m in g && m != id ensures SuspendedIn(c', m) <==> SuspendedIn(c, m) { }
  }

  lemma MemberRests(c: Cluster, g: Group, id: NamespacedName, now: int, f: Faults) returns (s: Status)
    requires ClosedGroup(g) && AllAtZero(c, g) && id in g && Reliable(f)
    requires id in Loose(c, g) || Needed(g, id) * Loose(c, g) != {}
    ensures Rests(c, id, now, f, s)
    ensures id !in Loose(c, g) ==> s.phase == Suspended
    ensures id in Loose(c, g) && s.phase == Suspended ==> Needed(g, id) * Loose(c, g) != {}
  {
    MemberInput(c, g, id, now, f);
    var i := InputFor(c, id, now, f);
    StepAtZero(c.wds[id].status, i);
    s := Step(c.wds[id].status, i);
  }

  /** A member that is loose, or needs somebody who is, stays at zero, and becomes Suspended only in the second case. */
  lemma MemberStaysAtZero(c: Cluster, g: Group, id: NamespacedName, now: int, f: Faults)
    requires ClosedGroup(g) && AllAtZero(c, g) && id in g && Reliable(f)
    requires id in Loose(c, g) || Needed(g, id) * Loose(c, g) != {}
    ensures
      var c' := Reconcile(c, id, now, f).0;
      && AllAtZero(c', g)
      && (Loose(c', g) == Loose(c, g) || (Loose(c', g) == Loose(c, g) - {id} && Needed(g, id) * Loose(c, g) != {}))
  {
    var s := MemberRests(c, g, id, now, f);
    StaysAtZero(c, g, id, now, f, s);
  }

  /** Reliable reconciles change no spec, pause, deletion mark or, once set, finalizer. */
  lemma ReconcileKeepsObject(c: Cluster, id: NamespacedName, now: int, f: Faults, x: NamespacedName)
    requires Reliable(f) && x in Reconcile(c, id, now, f).0.wds
    ensures
      var after := Reconcile(c, id, now, f).0.wds[x];
      && x in c.wds
      && after == c.wds[x].(status := after.status, conditions := after.conditions, finalizer := after.finalizer)
      && (c.wds[x].finalizer ==> after.finalizer)
  {
    if x != id {
      ReconcileFrames(c, id, now, f, x);
    } else if Live(c, id) {
      ReconcileIsStep(c, id, now, f);
    } else if id in c.wds && !c.wds[id].deleting {
      UncontendedWriteIsExact(c.wds[id], c.wds[id], Unknown, now, f.turns);
    }
  }

  lemma OutsiderLeavesAtZero(c: Cluster, g: Group, id: NamespacedName, now: int, f: Faults)
    requires AllAtZero(c, g) && id !in g && Reliable(f)
    ensures AllAtZero(Reconcile(c, id, now, f).0, g) && Loose(Reconcile(c, id, now, f).0, g) == Loose(c, g)
  {
    var c' := Reconcile(c, id, now, f).0;
    OutsiderKeepsCarried(c, g, id, now, f);
    forall m | m in g ensures AtZero(c', g, m) && OwnName(c', m) && (SuspendedIn(c', m) <==> SuspendedIn(c, m)) {
      assert AtZero(c, g, m) && OwnName(c, m);
      ReconcileFrames(c, id, now, f, m);
      OtherReconcileLeavesWorkload(c, id, now, f, MemberKey(g, m));
      forall x | x in c'.wds ensures x in c.wds && c'.wds[x].spec == c.wds[x].spec {
        ReconcileKeepsObject(c, id, now, f, x);
      }
    }
  }

  lemma OutsiderKeepsCarried(c: Cluster, g: Group, id: NamespacedName, now: int, f: Faults)
    requires Typed(c) && Carries(c, g) && id !in g && Reliable(f)
    ensures Typed(Reconcile(c, id, now, f).0) && Carries(Reconcile(c, id, now, f).0, g)
  {
    var c' := Reconcile(c, id, now, f).0;
    forall x | x in c'.wds ensures x in c.wds && c'.wds[x].spec == c.wds[x].spec {
      ReconcileKeepsObject(c, id, now, f, x);
    }
    ReconcileKeepsTyped(c, id, now, f);
  }

  lemma ReconcileKeepsTyped(c: Cluster, id: NamespacedName, now: int, f: Faults)
    requires Typed(c)
    ensures Typed(Reconcile(c, id, now, f).0)
  {
    if id in c.wds {
      var key, s := DependentKey(c.wds[id].spec, id.namespace), c.wds[id].status;
      if c.wds[id].deleting {
        WriteKeepsTyped(c, key, DeletionWrite(s, FetchDependent(c, c.wds[id], id.namespace, f.dependent)));
      } else if c.wds[id].finalizer {
        WriteKeepsTyped(c, key, Decide(s, InputFor(c, id, now, f)).write);
      }
    }
  }

  lemma WriteKeepsTyped(c: Cluster, key: WorkloadKey, write: Write)
    requires Typed(c)
    ensures Typed(WriteWorkload(c, key, write))
  {
    if key in c.workloads { ApplyKeepsKind(c.workloads[key], write); }
  }

  // ---- traps

  /** Members that are not Suspended and need nobody else who is not: none of them ever becomes Suspended. */
  ghost predicate Trap(t: set<NamespacedName>, loose: set<NamespacedName>, g: Group) {
    t != {} && t <= loose && forall x :: x in t ==> x in g && Needed(g, x) * loose <= t
  }

  /** Among the member and those it needs there is a trap. */
  ghost predicate Trapped(c: Cluster, g: Group, m: NamespacedName)
    requires m in g
  {
    exists t :: t <= {m} + Needed(g, m) && Trap(t, Loose(c, g), g)
  }

  /** The group is at zero and every member is trapped. */
  ghost predicate Stuck(c: Cluster, g: Group) {
    AllAtZero(c, g) && forall m {:trigger Trapped(c, g, m)} :: m in g ==> Trapped(c, g, m)
  }

  lemma TrapShrinks(t: set<NamespacedName>, loose: set<NamespacedName>, g: Group, id: NamespacedName)
    requires ClosedGroup(g) && Trap(t, loose, g) && id in g && Needed(g, id) * loose != {}
    ensures Trap(t - {id}, loose - {id}, g)
  {
    NotItsOwnNeed(g, id);
    var y :| y in Needed(g, id) * loose;
    if id in t { assert y in t - {id}; }
  }

  lemma TrappedStays(c: Cluster, c': Cluster, g: Group, id: NamespacedName, m: NamespacedName)
    requires ClosedGroup(g) && id in g && m in g && Trapped(c, g, m)
    requires Loose(c', g) == Loose(c, g) || (Loose(c', g) == Loose(c, g) - {id} && Needed(g, id) * Loose(c, g) != {})
    ensures Trapped(c', g, m)
  {
    var t :| t <= {m} + Needed(g, m) && Trap(t, Loose(c, g), g);
    if Loose(c', g) != Loose(c, g) {
      TrapShrinks(t, Loose(c, g), g, id);
      assert t - {id} <= {m} + Needed(g, m);
    }
  }

  lemma StuckStep(c: Cluster, g: Group, id: NamespacedName, now: int, f: Faults)
    requires ClosedGroup(g) && Stuck(c, g) && Reliable(f)
    ensures Stuck(Reconcile(c, id, now, f).0, g)
  {
    var c' := Reconcile(c, id, now, f).0;
    var a := if id in g then id else var x :| x in g; x;
    if id in g {
      assert Trapped(c, g, id);
      var t :| t <= {id} + Needed(g, id) && Trap(t, Loose(c, g), g);
      var x :| x in t;
      MemberStaysAtZero(c, g, id, now, f);
    } else {
      OutsiderLeavesAtZero(c, g, id, now, f);
    }
    forall m | m in g ensures Trapped(c', g, m) { TrappedStays(c, c', g, a, m); }
  }

  /** klink on its own: reconciles of any objects in any order, at any times, with reads, listings and patches failing
      at will. */
  ghost predicate KlinkStep(cs: seq<Cluster>, events: seq<Event>, k: nat)
    requires |cs| == |events| + 1 && k < |events|
  {
    var e := events[k];
    e.Klink? && Reliable(e.faults) && cs[k + 1] == Reconcile(cs[k], e.id, e.now, e.faults).0
  }

  ghost predicate KlinkRun(cs: seq<Cluster>, events: seq<Event>) {
    && |cs| == |events| + 1
    && forall k: nat :: k < |events| ==> KlinkStep(cs, events, k)
  }

  /** Deadlock: a closed group at zero in which every member is trapped stays at zero for good. */
  lemma {:induction false} StuckForever(cs: seq<Cluster>, events: seq<Event>, g: Group, k: nat)
    requires ClosedGroup(g) && KlinkRun(cs, events) && k < |cs| && Stuck(cs[0], g)
    ensures Stuck(cs[k], g)
    decreases k
  {
    if k > 0 {
      StuckForever(cs, events, g, k - 1);
      StuckAt(cs, events, g, k);
    }
  }

  lemma StuckAt(cs: seq<Cluster>, events: seq<Event>, g: Group, k: nat)
    requires ClosedGroup(g) && KlinkRun(cs, events) && 0 < k < |cs| && Stuck(cs[k - 1], g)
    ensures Stuck(cs[k], g)
  {
    assert KlinkStep(cs, events, k - 1);
    var e := events[k - 1];
    StuckStep(cs[k - 1], g, e.id, e.now, e.faults);
  }

  // ---- the way back

  /** A run of klink alone, with a clock that does not run backwards, between `start` and `clock`. */
  ghost predicate TimedRun(cs: seq<Cluster>, events: seq<Event>, start: int, clock: int) {
    && KlinkRun(cs, events) && start <= clock
    && (forall k {:trigger events[k]} :: 0 <= k < |events| ==> events[k].Klink? && start <= events[k].now <= clock)
    && (forall j, k :: 0 <= j <= k < |events| ==> events[j].now <= events[k].now)
  }

  lemma Advance(cs: seq<Cluster>, events: seq<Event>, start: int, clock: int, id: NamespacedName, now: int)
    requires TimedRun(cs, events, start, clock) && clock <= now
    ensures
      var c' := Reconcile(cs[|events|], id, now, CALM).0;
      TimedRun(cs + [c'], events + [Klink(id, now, CALM)], start, now)
  {
    var cs', events' := cs + [Reconcile(cs[|events|], id, now, CALM).0], events + [Klink(id, now, CALM)];
    forall k: nat | k < |events'| ensures KlinkStep(cs', events', k) {
      if k < |events| { assert KlinkStep(cs, events, k); }
    }
  }

  function Later(a: int, b: int): int { if a < b then b else a }

  lemma StepLoose(s: Status, i: Input)
    requires ReadsAtZero(i) && i.dependent.Found? && i.patchOk && i.verdict == NotOk
    requires WellFormed(s) && s.saved.Some? && s.phase != Suspended
    ensures Decide(s, i).write == NoWrite && Step(s, i).saved == s.saved && WellFormed(Step(s, i))
    ensures
      if s.degradedSince.None? then Step(s, i).phase == Degraded && Step(s, i).degradedSince == Some(i.now)
      else i.now >= s.degradedSince.value + DegradedWindow(i.spec.dependsOn) ==> Step(s, i).phase == Suspended
  {
  }

  /** One reconcile of a loose member that needs another: the window starts, or it is over and the member is Suspended.
      */
  lemma LooseDecides(c: Cluster, g: Group, x: NamespacedName, now: int) returns (s: Status)
    requires ClosedGroup(g) && AllAtZero(c, g) && x in Loose(c, g) && Needed(g, x) * Loose(c, g) != {}
    ensures Rests(c, x, now, CALM, s)
    ensures
      var since := c.wds[x].status.degradedSince;
      if since.None? then s.phase == Degraded && s.degradedSince == Some(now)
      else now >= since.value + DegradedWindow(c.wds[x].spec.dependsOn) ==> s.phase == Suspended
  {
    MemberInput(c, g, x, now, CALM);
    var i := InputFor(c, x, now, CALM);
    StepLoose(c.wds[x].status, i);
    s := Step(c.wds[x].status, i);
  }

  lemma LooseReconcile(c: Cluster, g: Group, loose: set<NamespacedName>, x: NamespacedName, now: int)
    requires ClosedGroup(g) && StandsAt(c, g, loose) && x in loose && Needed(g, x) * loose != {}
    ensures
      var c' := Reconcile(c, x, now, CALM).0;
      && x in c.wds && x in c'.wds && c'.wds[x].spec == c.wds[x].spec
      && var since := c.wds[x].status.degradedSince;
         if since.None? then StandsAt(c', g, loose) && c'.wds[x].status.degradedSince == Some(now)
         else now >= since.value + DegradedWindow(c.wds[x].spec.dependsOn) ==> StandsAt(c', g, loose - {x})
  {
    var s := LooseDecides(c, g, x, now);
    assert loose + {x} == loose;
    StaysAtZero(c, g, x, now, CALM, s);
  }

  /** So a loose member that needs another can become Suspended. */
  lemma SuspendLoose(cs: seq<Cluster>, events: seq<Event>, start: int, clock: int,
                     g: Group, loose: set<NamespacedName>, x: NamespacedName)
      returns (cs': seq<Cluster>, events': seq<Event>, clock': int)
    requires ClosedGroup(g) && TimedRun(cs, events, start, clock) && StandsAt(cs[|events|], g, loose)
    requires x in loose && Needed(g, x) * loose != {}
    ensures TimedRun(cs', events', start, clock') && cs'[0] == cs[0] && StandsAt(cs'[|events'|], g, loose - {x})
  {
    cs', events', clock' := cs, events, clock;
    LooseReconcile(cs'[|events'|], g, loose, x, clock');
    if cs'[|events'|].wds[x].status.degradedSince.None? {
      Advance(cs', events', start, clock', x, clock');
      cs', events' := cs' + [Reconcile(cs'[|events'|], x, clock', CALM).0], events' + [Klink(x, clock', CALM)];
    }
    var c := cs'[|events'|];
    var due := Later(clock', c.wds[x].status.degradedSince.value + DegradedWindow(c.wds[x].spec.dependsOn));
    LooseReconcile(c, g, loose, x, due);
    Advance(cs', events', start, clock', x, due);
    cs', events', clock' := cs' + [Reconcile(c, x, due, CALM).0], events' + [Klink(x, due, CALM)], due;
  }

  lemma Escape(t: set<NamespacedName>, loose: set<NamespacedName>, g: Group) returns (x: NamespacedName)
    requires t != {} && t <= loose <= g.Keys && !Trap(t, loose, g)
    ensures x in t && Needed(g, x) * (loose - (t - {x})) != {} && loose - (t - {x}) - {x} == loose - t
  {
    x :| x in t && !(Needed(g, x) * loose <= t);
    var y :| y in Needed(g, x) * loose && y !in t;
    assert y in Needed(g, x) * (loose - (t - {x}));
  }

  ghost predicate TrapFree(t: set<NamespacedName>, loose: set<NamespacedName>, g: Group) {
    forall t' {:trigger Trap(t', loose, g)} :: t' <= t ==> !Trap(t', loose, g)
  }

  /** Loose members without a trap among them can all become Suspended. */
  lemma {:induction false} SuspendAll(cs: seq<Cluster>, events: seq<Event>, start: int, clock: int,
                                      g: Group, loose: set<NamespacedName>, t: set<NamespacedName>)
      returns (cs': seq<Cluster>, events': seq<Event>, clock': int)
    requires ClosedGroup(g) && TimedRun(cs, events, start, clock) && StandsAt(cs[|events|], g, loose)
    requires t <= loose && TrapFree(t, loose, g)
    ensures TimedRun(cs', events', start, clock') && cs'[0] == cs[0] && StandsAt(cs'[|events'|], g, loose - t)
    decreases t
  {
    if t == {} {
      cs', events', clock' := cs, events, clock;
      assert loose - t == loose;
    } else {
      var x := Escape(t, loose, g);
      cs', events', clock' := SuspendAll(cs, events, start, clock, g, loose, t - {x});
      cs', events', clock' := SuspendLoose(cs', events', start, clock', g, loose - (t - {x}), x);
    }
  }

  /** The dependent has come back. */
  predicate Restored(c: Cluster, key: WorkloadKey) {
    key in c.workloads && c.workloads[key].GetReplicas() > 0
  }

  lemma StepHealthy(s: Status, i: Input)
    requires ReadsAtZero(i) && i.dependent.Found? && i.patchOk && i.verdict == AllOk && WellFormed(s)
    requires s.saved.Some? && s.phase == Suspended
    ensures
      if s.healthySince.None? then
        && Decide(s, i).write == NoWrite && Step(s, i).saved == s.saved && WellFormed(Step(s, i))
        && Step(s, i).phase == Suspended && Step(s, i).healthySince == Some(i.now)
      else
        i.now >= s.healthySince.value + RecoveryWindow(i.spec.dependsOn) ==> Decide(s, i).write == Scale(s.saved.value)
  {
  }

  /** One reconcile of a Suspended member that needs nobody loose: the recovery window starts, or it is over and the
      dependent comes back. */
  lemma FreeReconcile(c: Cluster, g: Group, loose: set<NamespacedName>, m: NamespacedName, now: int)
    requires ClosedGroup(g) && StandsAt(c, g, loose) && m in g && m !in loose && Needed(g, m) * loose == {}
    ensures
      var c' := Reconcile(c, m, now, CALM).0;
      && m in c.wds && m in c'.wds && c'.wds[m].spec == c.wds[m].spec
      && var since := c.wds[m].status.healthySince;
         if since.None? then StandsAt(c', g, loose) && c'.wds[m].status.healthySince == Some(now)
         else now >= since.value + RecoveryWindow(c.wds[m].spec.dependsOn) ==> Restored(c', MemberKey(g, m))
  {
    assert AtZero(c, g, m) && SuspendedIn(c, m);
    MemberInput(c, g, m, now, CALM);
    StepHealthy(c.wds[m].status, InputFor(c, m, now, CALM));
    if c.wds[m].status.healthySince.None? {
      StaysAtZero(c, g, m, now, CALM, Step(c.wds[m].status, InputFor(c, m, now, CALM)));
    } else {
      ReconcileIsStep(c, m, now, CALM);
      ScaleSetsCount(c.workloads[MemberKey(g, m)], c.wds[m].status.saved.value);
    }
  }

  lemma RestoreFree(cs: seq<Cluster>, events: seq<Event>, start: int, clock: int,
                    g: Group, loose: set<NamespacedName>, m: NamespacedName)
      returns (cs': seq<Cluster>, events': seq<Event>, clock': int)
    requires ClosedGroup(g) && TimedRun(cs, events, start, clock) && StandsAt(cs[|events|], g, loose)
    requires m in g && m !in loose && Needed(g, m) * loose == {}
    ensures TimedRun(cs', events', start, clock') && cs'[0] == cs[0] && Restored(cs'[|events'|], MemberKey(g, m))
  {
    cs', events', clock' := cs, events, clock;
    FreeReconcile(cs'[|events'|], g, loose, m, clock');
    if cs'[|events'|].wds[m].status.healthySince.None? {
      Advance(cs', events', start, clock', m, clock');
      cs', events' := cs' + [Reconcile(cs'[|events'|], m, clock', CALM).0], events' + [Klink(m, clock', CALM)];
    }
    var c := cs'[|events'|];
    var due := Later(clock', c.wds[m].status.healthySince.value + RecoveryWindow(c.wds[m].spec.dependsOn));
    FreeReconcile(c, g, loose, m, due);
    Advance(cs', events', start, clock', m, due);
    cs', events', clock' := cs' + [Reconcile(c, m, due, CALM).0], events' + [Klink(m, due, CALM)], due;
  }

  /** A member that is not trapped comes back, from any start of the clock. */
  lemma ComesBack(c: Cluster, g: Group, m: NamespacedName, start: int)
      returns (cs: seq<Cluster>, events: seq<Event>, clock: int)
    requires ClosedGroup(g) && AllAtZero(c, g) && m in g && !Trapped(c, g, m)
    ensures TimedRun(cs, events, start, clock) && cs[0] == c && Restored(cs[|events|], MemberKey(g, m))
  {
    var loose := Loose(c, g);
    var t := ({m} + Needed(g, m)) * loose;
    assert TrapFree(t, loose, g) by {
      forall t' | t' <= t ensures !Trap(t', loose, g) { assert t' <= {m} + Needed(g, m); }
    }
    cs, events, clock := SuspendAll([c], [], start, start, g, loose, t);
    assert Needed(g, m) * (loose - t) == {};
    cs, events, clock := RestoreFree(cs, events, start, clock, g, loose - t, m);
  }

  /** A run of klink alone from c that ends with the dependent of a member restored. */
  ghost predicate BringsBack(cs: seq<Cluster>, events: seq<Event>, clock: int, id: NamespacedName, c: Cluster,
                             g: Group, start: int)
    requires id in g
  {
    TimedRun(cs, events, start, clock) && cs[0] == c && Restored(cs[|events|], MemberKey(g, id))
  }

  lemma StuckNeverReturns(cs: seq<Cluster>, events: seq<Event>, clock: int, id: NamespacedName, c: Cluster, g: Group,
                          start: int)
    requires ClosedGroup(g) && Stuck(c, g) && id in g
    ensures !BringsBack(cs, events, clock, id, c, g, start)
  {
    if TimedRun(cs, events, start, clock) && cs[0] == c {
      StuckForever(cs, events, g, |events|);
      assert AtZero(cs[|events|], g, id);
    }
  }

  /** Exactly when a closed group at zero comes back by klink alone: some sequence of reconciles, from any start of the
      clock, restores a member if and only if some member is not trapped. Otherwise no sequence ever does. */
  lemma ComesBackExactlyWhen(c: Cluster, g: Group, start: int)
    requires ClosedGroup(g) && AllAtZero(c, g)
    ensures (exists m :: m in g && !Trapped(c, g, m)) <==>
      exists cs, events, clock, id :: id in g && BringsBack(cs, events, clock, id, c, g, start)
  {
    if m :| m in g && !Trapped(c, g, m) {
      var cs, events, clock := ComesBack(c, g, m, start);
      assert BringsBack(cs, events, clock, m, c, g, start);
    } else {
      forall cs, events, clock, id | id in g ensures !BringsBack(cs, events, clock, id, c, g, start) {
        StuckNeverReturns(cs, events, clock, id, c, g, start);
      }
    }
  }

  // ---- groups in which everybody depends on everybody else

  /** Everybody depends on everybody else, as in a mutual pair. */
  ghost predicate MutualGroup(g: Group) {
    && ClosedGroup(g)
    && forall a, b {:trigger DependsOnMember(g, a, b)} :: a in g && b in g && a != b ==> DependsOnMember(g, a, b)
  }

  /** In such a group, at zero on all sides, everybody is trapped unless everybody is Suspended. */
  lemma MutualStuckExactlyWhen(c: Cluster, g: Group)
    requires MutualGroup(g) && AllAtZero(c, g)
    ensures Stuck(c, g) <==> !AllSuspended(c, g)
  {
    var loose := Loose(c, g);
    if AllSuspended(c, g) {
      var m :| m in g;
      assert loose == {};
      assert !Trapped(c, g, m);
    } else {
      var x :| x in g && !SuspendedIn(c, x);
      assert x in loose;
      forall m | m in g ensures Trapped(c, g, m) {
        assert Trap(loose, loose, g);
        forall b | b in g && b != m ensures b in Needed(g, m) { assert DependsOnMember(g, m, b); }
        assert loose <= {m} + Needed(g, m);
      }
    }
  }
}
