/** Clusters that show why the theorems about many WorkloadDependencies carry the conditions they carry. */
module ClusterCounterexamples {
  import opened Types
  import opened Workloads
  import opened Machine
  import opened StatusWrites
  import opened Graphs
  import opened Clusters
  import opened Projection
  import opened Deadlock
  import opened Mutual
  import opened Standstill
  import Admission
  import Readiness

  /** A soft WorkloadDependency between two Deployments of one namespace, with the default windows. */
  function Needs(dependent: string, dependency: string, namespace: string): Spec {
    Spec(
      WorkloadRef("Deployment", dependent, namespace),
      [DependsOnEntry("Deployment", dependency, namespace, HealthCondition(100, 0, 0))],
      0, Soft)
  }

  function Object(spec: Spec, status: Status): WD {
    WD(spec, false, false, true, 1, status, [])
  }

  function Pair(web: NamespacedName, db: NamespacedName): Group {
    map[web := Needs(web.name, db.name, web.namespace), db := Needs(db.name, web.name, web.namespace)]
  }

  function DeploymentKey(n: NamespacedName): WorkloadKey {
    WorkloadKey(DeploymentKind, n.namespace, n.name)
  }

  predicate TwoNames(web: NamespacedName, db: NamespacedName) {
    web.name != db.name && web.namespace == db.namespace && web.namespace != ""
  }

  lemma PairIsClosed(web: NamespacedName, db: NamespacedName)
    requires TwoNames(web, db)
    ensures ClosedGroup(Pair(web, db))
  {
    var g := Pair(web, db);
    forall a, dep | a in g && dep in g[a].dependsOn ensures ProvidedByOther(g, a, dep) {
      var b := if a == web then db else web;
      assert b in g && b != a && MemberKey(g, b) == DependencyKey(dep, a.namespace);
    }
    assert web in g.Keys;
  }

  // ---- runs of a pair

  /** All that matters about the pair: its statuses, its workloads and who is paused. */
  datatype PairState = PairState(
    web: Status, db: Status, webLoad: Workload, dbLoad: Workload, webPaused: bool, dbPaused: bool)

  function Swap(p: PairState): PairState {
    PairState(p.db, p.web, p.dbLoad, p.webLoad, p.dbPaused, p.webPaused)
  }

  ghost predicate ShowsObject(wd: WD, spec: Spec, paused: bool, status: Status) {
    wd.spec == spec && wd.paused == paused && !wd.deleting && wd.finalizer && wd.status == status
  }

  ghost predicate Shows(c: Cluster, web: NamespacedName, db: NamespacedName, p: PairState) {
    && c.wds.Keys == {web, db} && c.workloads.Keys == {DeploymentKey(web), DeploymentKey(db)}
    && ShowsObject(c.wds[web], Needs(web.name, db.name, web.namespace), p.webPaused, p.web)
    && ShowsObject(c.wds[db], Needs(db.name, web.name, web.namespace), p.dbPaused, p.db)
    && c.workloads[DeploymentKey(web)] == p.webLoad && c.workloads[DeploymentKey(db)] == p.dbLoad
    && p.webLoad.Deployment? && p.dbLoad.Deployment?
  }

  /** How web sees db: as healthy or co-suspended, or as unhealthy. */
  function WebSees(p: PairState): Verdict {
    if DepStatus(p.dbLoad, HealthCondition(100, 0, 0), p.db.phase == Suspended) == DepUnhealthy then NotOk else AllOk
  }

  function WebInput(web: NamespacedName, db: NamespacedName, p: PairState, now: int, seen: Verdict): Input {
    Input(Needs(web.name, db.name, web.namespace), p.webPaused, Found(p.webLoad), seen, true, now)
  }

  function WebNext(web: NamespacedName, db: NamespacedName, p: PairState, now: int, seen: Verdict): PairState {
    var i := WebInput(web, db, p, now, seen);
    p.(web := Step(p.web, i), webLoad := Apply(p.webLoad, Decide(p.web, i).write))
  }

  function DbNext(web: NamespacedName, db: NamespacedName, p: PairState, now: int, seen: Verdict): PairState {
    Swap(WebNext(db, web, Swap(p), now, seen))
  }

  lemma SwapShows(c: Cluster, web: NamespacedName, db: NamespacedName, p: PairState)
    requires TwoNames(web, db) && Shows(c, web, db, p)
    ensures Shows(c, db, web, Swap(p))
  {
  }

  lemma ReadsPair(c: Cluster, web: NamespacedName, db: NamespacedName, p: PairState, now: int)
    requires TwoNames(web, db) && Shows(c, web, db, p)
    ensures InputFor(c, web, now, CALM) == WebInput(web, db, p, now, WebSees(p))
  {
    var dep := DependsOnEntry("Deployment", db.name, web.namespace, HealthCondition(100, 0, 0));
    assert c.wds[web].spec.dependsOn == [dep];
    assert DependencyKey(dep, web.namespace) == DeploymentKey(db);
    assert DependentName(c.wds[web].spec, web.namespace) == web && DependentName(c.wds[db].spec, db.namespace) == db;
    assert SuspendedByKlink(c, db) <==> p.db.phase == Suspended by {
      if p.db.phase == Suspended { assert db in c.wds; }
    }
    assert dep in c.wds[web].spec.dependsOn;
  }

  lemma WebReconciles(c: Cluster, web: NamespacedName, db: NamespacedName, p: PairState, now: int, seen: Verdict)
    requires TwoNames(web, db) && Shows(c, web, db, p) && WebSees(p) == seen
    ensures Shows(Reconcile(c, web, now, CALM).0, web, db, WebNext(web, db, p, now, seen))
  {
    ReadsPair(c, web, db, p, now);
    ReconcileIsStep(c, web, now, CALM);
    ApplyKeepsKind(p.webLoad, Decide(p.web, WebInput(web, db, p, now, seen)).write);
  }

  lemma PairCarried(c: Cluster, web: NamespacedName, db: NamespacedName, p: PairState)
    requires TwoNames(web, db) && Shows(c, web, db, p)
    ensures Typed(c) && Carries(c, Pair(web, db))
  {
  }

  /** A run of the pair so far, and where it stands. */
  ghost predicate Reached(cs: seq<Cluster>, events: seq<Event>, web: NamespacedName, db: NamespacedName, p: PairState) {
    IsRun(cs, events, Pair(web, db)) && Shows(cs[|events|], web, db, p)
  }

  lemma Append(cs: seq<Cluster>, events: seq<Event>, g: Group, e: Event, c: Cluster)
    requires IsRun(cs, events, g) && IsStep(cs[|events|], e, c, g)
    ensures IsRun(cs + [c], events + [e], g) && (cs + [c])[0] == cs[0] && (cs + [c])[|events + [e]|] == c
  {
    var cs', events' := cs + [c], events + [e];
    forall k: nat | k < |events'| ensures IsStep(cs'[k], events'[k], cs'[k + 1], g) {
      if k < |events| { assert IsStep(cs[k], events[k], cs[k + 1], g); }
    }
  }

  lemma WebTurn(cs: seq<Cluster>, events: seq<Event>, web: NamespacedName, db: NamespacedName,
                 p: PairState, now: int, seen: Verdict)
      returns (cs': seq<Cluster>, events': seq<Event>)
    requires TwoNames(web, db) && Reached(cs, events, web, db, p) && WebSees(p) == seen
    ensures Reached(cs', events', web, db, WebNext(web, db, p, now, seen)) && cs'[0] == cs[0]
  {
    var c := cs[|events|];
    WebReconciles(c, web, db, p, now, seen);
    Append(cs, events, Pair(web, db), Klink(web, now, CALM), Reconcile(c, web, now, CALM).0);
    cs', events' := cs + [Reconcile(c, web, now, CALM).0], events + [Klink(web, now, CALM)];
  }

  lemma DbTurn(cs: seq<Cluster>, events: seq<Event>, web: NamespacedName, db: NamespacedName,
                p: PairState, now: int, seen: Verdict)
      returns (cs': seq<Cluster>, events': seq<Event>)
    requires TwoNames(web, db) && Reached(cs, events, web, db, p) && WebSees(Swap(p)) == seen
    ensures Reached(cs', events', web, db, DbNext(web, db, p, now, seen)) && cs'[0] == cs[0]
  {
    var c := cs[|events|];
    var c' := Reconcile(c, db, now, CALM).0;
    SwapShows(c, web, db, p);
    WebReconciles(c, db, web, Swap(p), now, seen);
    SwapShows(c', db, web, WebNext(db, web, Swap(p), now, seen));
    Append(cs, events, Pair(web, db), Klink(db, now, CALM), c');
    cs', events' := cs + [c'], events + [Klink(db, now, CALM)];
  }

  /** Somebody sets or removes the pause annotation of web. */
  lemma PauseTurn(cs: seq<Cluster>, events: seq<Event>, web: NamespacedName, db: NamespacedName, p: PairState,
                  paused: bool)
      returns (cs': seq<Cluster>, events': seq<Event>)
    requires TwoNames(web, db) && Reached(cs, events, web, db, p)
    ensures Reached(cs', events', web, db, p.(webPaused := paused)) && cs'[0] == cs[0]
  {
    var c := cs[|events|];
    var c' := c.(wds := c.wds[web := c.wds[web].(paused := paused)]);
    assert Shows(c', web, db, p.(webPaused := paused));
    PairCarried(c', web, db, p.(webPaused := paused));
    Append(cs, events, Pair(web, db), Environment, c');
    cs', events' := cs + [c'], events + [Environment];
  }

  /** Two fresh objects and two Deployments. */
  function Start(web: NamespacedName, db: NamespacedName, webLoad: Workload, dbLoad: Workload): Cluster {
    Cluster(
      map[web := Object(Needs(web.name, db.name, web.namespace), FRESH),
          db := Object(Needs(db.name, web.name, web.namespace), FRESH)],
      map[DeploymentKey(web) := webLoad, DeploymentKey(db) := dbLoad])
  }

  lemma StartReached(web: NamespacedName, db: NamespacedName, webLoad: Workload, dbLoad: Workload)
    requires TwoNames(web, db) && webLoad.Deployment? && dbLoad.Deployment?
    ensures Reached([Start(web, db, webLoad, dbLoad)], [], web, db,
                    PairState(FRESH, FRESH, webLoad, dbLoad, false, false))
    ensures Untouched(Start(web, db, webLoad, dbLoad), Pair(web, db))
  {
    var c := Start(web, db, webLoad, dbLoad);
    assert Shows(c, web, db, PairState(FRESH, FRESH, webLoad, dbLoad, false, false));
    PairCarried(c, web, db, PairState(FRESH, FRESH, webLoad, dbLoad, false, false));
  }

  // ---- what single reconciles of the pair do

  lemma DefaultWindow(a: string, b: string, namespace: string)
    ensures DegradedWindow(Needs(a, b, namespace).dependsOn) == 30 * SECOND
  {
    assert Needs(a, b, namespace).dependsOn[1..] == [];
  }

  function DegradedAt(second: int): Status { Status(Degraded, None, Some(second * SECOND), None, None) }

  function SuspendedAfter(second: int, count: int): Status {
    Status(Suspended, Some(count), Some(second * SECOND), Some((second + 30) * SECOND), None)
  }

  /** db is unhealthy in web's eyes: it has no ready replica, or is at zero and nobody is Suspended over it. */
  predicate Down(p: PairState) {
    && p.dbLoad.Deployment?
    && if p.dbLoad.GetReplicas() == 0 then p.db.phase != Suspended
       else p.dbLoad.ready == 0 && 0 < p.dbLoad.GetReplicas() < 0x8000_0000
  }

  lemma DownIsNotOk(p: PairState)
    requires Down(p)
    ensures WebSees(p) == NotOk
  {
    if p.dbLoad.GetReplicas() != 0 { Readiness.ThresholdMeaning(p.dbLoad.ready, p.dbLoad.GetReplicas(), 100); }
  }

  lemma WebDegrades(web: NamespacedName, db: NamespacedName, p: PairState, second: int)
    requires p.web == FRESH && !p.webPaused && p.webLoad.Deployment?
    ensures WebNext(web, db, p, second * SECOND, NotOk) == p.(web := DegradedAt(second))
  {
  }

  lemma WebSuspends(web: NamespacedName, db: NamespacedName, p: PairState, second: int, count: int)
    requires p.web == DegradedAt(second) && !p.webPaused && 0 < count < 100
    requires p.webLoad.Deployment? && p.webLoad.replicas == Some(count)
    ensures WebNext(web, db, p, (second + 30) * SECOND, NotOk) ==
      p.(web := SuspendedAfter(second, count), webLoad := Deployment(Some(0), p.webLoad.ready))
  {
    DefaultWindow(web.name, db.name, web.namespace);
  }

  lemma WebGoesDegraded(cs: seq<Cluster>, events: seq<Event>, web: NamespacedName, db: NamespacedName, p: PairState,
                        second: int)
      returns (cs': seq<Cluster>, events': seq<Event>)
    requires TwoNames(web, db) && Reached(cs, events, web, db, p)
    requires p.web == FRESH && !p.webPaused && Down(p) && p.webLoad.Deployment?
    ensures cs' != [] && cs'[0] == cs[0] && Reached(cs', events', web, db, p.(web := DegradedAt(second)))
  {
    DownIsNotOk(p);
    WebDegrades(web, db, p, second);
    cs', events' := WebTurn(cs, events, web, db, p, second * SECOND, NotOk);
  }

  /** web, unhealthy for a window, goes down to zero. */
  lemma WebGoesDown(cs: seq<Cluster>, events: seq<Event>, web: NamespacedName, db: NamespacedName, p: PairState,
                    second: int, count: int)
      returns (cs': seq<Cluster>, events': seq<Event>)
    requires TwoNames(web, db) && Reached(cs, events, web, db, p) && 0 < count < 100
    requires p.web == FRESH && !p.webPaused && Down(p) && p.webLoad.Deployment? && p.webLoad.replicas == Some(count)
    ensures cs' != [] && cs'[0] == cs[0]
    ensures Reached(cs', events', web, db,
                    p.(web := SuspendedAfter(second, count), webLoad := Deployment(Some(0), p.webLoad.ready)))
  {
    cs', events' := WebGoesDegraded(cs, events, web, db, p, second);
    DownIsNotOk(p.(web := DegradedAt(second)));
    WebSuspends(web, db, p.(web := DegradedAt(second)), second, count);
    cs', events' := WebTurn(cs', events', web, db, p.(web := DegradedAt(second)), (second + 30) * SECOND, NotOk);
  }

  lemma DbGoesDown(cs: seq<Cluster>, events: seq<Event>, web: NamespacedName, db: NamespacedName, p: PairState,
                   second: int, count: int)
      returns (cs': seq<Cluster>, events': seq<Event>)
    requires TwoNames(web, db) && Reached(cs, events, web, db, p) && 0 < count < 100
    requires p.db == FRESH && !p.dbPaused && Down(Swap(p)) && p.dbLoad.Deployment? && p.dbLoad.replicas == Some(count)
    ensures cs' != [] && cs'[0] == cs[0]
    ensures Reached(cs', events', web, db,
                    p.(db := SuspendedAfter(second, count), dbLoad := Deployment(Some(0), p.dbLoad.ready)))
  {
    DownIsNotOk(Swap(p));
    WebDegrades(db, web, Swap(p), second);
    cs', events' := DbTurn(cs, events, web, db, p, second * SECOND, NotOk);
    DownIsNotOk(Swap(p.(db := DegradedAt(second))));
    WebSuspends(db, web, Swap(p.(db := DegradedAt(second))), second, count);
    cs', events' := DbTurn(cs', events', web, db, p.(db := DegradedAt(second)), (second + 30) * SECOND, NotOk);
  }

  lemma WebPauses(web: NamespacedName, db: NamespacedName, p: PairState, now: int, seen: Verdict)
    requires p.webPaused
    ensures WebNext(web, db, p, now, seen) == p.(web := p.web.(phase := Paused, suspendedAt := None))
  {
  }

  /** A paused member that is resumed while the other side is co-suspended becomes Healthy and keeps its saved count. */
  lemma WebResumes(web: NamespacedName, db: NamespacedName, p: PairState, now: int)
    requires !p.webPaused && p.web.phase == Paused && p.webLoad.Deployment?
    requires p.db.phase == Suspended && p.dbLoad.Deployment? && p.dbLoad.replicas == Some(0)
    ensures WebSees(p) == AllOk
    ensures WebNext(web, db, p, now, AllOk) == p.(web := Status(Healthy, p.web.saved, None, None, None))
  {
  }

  // ---- a pause deadlocks the pair

  /** Both at zero with their counts saved, web Healthy and db Suspended. */
  function DeadlockedPair(): PairState {
    PairState(Status(Healthy, Some(3), None, None, None), SuspendedAfter(31, 3),
              Deployment(Some(0), 3), Deployment(Some(0), 0), false, false)
  }

  lemma PairIsMutual(web: NamespacedName, db: NamespacedName)
    requires TwoNames(web, db)
    ensures MutualGroup(Pair(web, db))
  {
    var g := Pair(web, db);
    PairIsClosed(web, db);
    forall a, b | a in g && b in g && a != b ensures DependsOnMember(g, a, b) {
      assert g[a].dependsOn[0] in g[a].dependsOn && DependencyKey(g[a].dependsOn[0], a.namespace) == MemberKey(g, b);
    }
  }

  lemma DeadlockedIsStuck(c: Cluster, web: NamespacedName, db: NamespacedName)
    requires TwoNames(web, db) && Shows(c, web, db, DeadlockedPair())
    ensures Stuck(c, Pair(web, db))
  {
    PairCarried(c, web, db, DeadlockedPair());
    PairIsMutual(web, db);
    assert web in Pair(web, db) && !SuspendedIn(c, web);
    forall id | id in Pair(web, db) ensures AtZero(c, Pair(web, db), id) && OwnName(c, id) { }
    MutualStuckExactlyWhen(c, Pair(web, db));
  }

  /** A pause deadlocks a mutual pair: from two fresh objects, with nothing but reconciles and one pause and resume of
      web, the pair comes to stand at zero on both sides, and by Standstill.StuckForever it stays there whatever klink
      does. */
  lemma PauseDeadlocksPair(web: NamespacedName, db: NamespacedName) returns (cs: seq<Cluster>, events: seq<Event>)
    requires TwoNames(web, db)
    ensures IsRun(cs, events, Pair(web, db)) && Untouched(cs[0], Pair(web, db))
    ensures MutualGroup(Pair(web, db)) && Stuck(cs[|events|], Pair(web, db))
  {
    var webLoad, dbLoad := Deployment(Some(3), 3), Deployment(Some(3), 0);
    var p := PairState(FRESH, FRESH, webLoad, dbLoad, false, false);
    StartReached(web, db, webLoad, dbLoad);
    cs, events := [Start(web, db, webLoad, dbLoad)], [];
    cs, events := WebGoesDown(cs, events, web, db, p, 0, 3);
    p := p.(web := SuspendedAfter(0, 3), webLoad := Deployment(Some(0), 3));
    cs, events := PauseTurn(cs, events, web, db, p, true);
    p := p.(webPaused := true);
    WebPauses(web, db, p, 31 * SECOND, WebSees(p));
    cs, events := WebTurn(cs, events, web, db, p, 31 * SECOND, WebSees(p));
    p := p.(web := Status(Paused, Some(3), Some(0), None, None));
    cs, events := DbGoesDown(cs, events, web, db, p, 31, 3);
    p := p.(db := SuspendedAfter(31, 3), dbLoad := Deployment(Some(0), 0));
    cs, events := PauseTurn(cs, events, web, db, p, false);
    p := p.(webPaused := false);
    WebResumes(web, db, p, 62 * SECOND);
    cs, events := WebTurn(cs, events, web, db, p, 62 * SECOND, AllOk);
    PairIsMutual(web, db);
    DeadlockedIsStuck(cs[|events|], web, db);
  }

  // ---- a raised workload

  /** Why held workloads must not be raised: db is suspended because web is down; then somebody scales db up again, and
      before it has a ready replica web is suspended too. Both halves are runs from two fresh objects, with that one
      change between them. */
  lemma RaisedWorkloadDefeatsPair(web: NamespacedName, db: NamespacedName)
      returns (before: seq<Cluster>, first: seq<Event>, after: seq<Cluster>, second: seq<Event>)
    requires TwoNames(web, db)
    ensures ClosedGroup(Pair(web, db)) && IsRun(before, first, Pair(web, db)) && Untouched(before[0], Pair(web, db))
    ensures after != [] && Typed(after[0]) && Carries(after[0], Pair(web, db))
    ensures after[0] ==
      before[|first|].(workloads := before[|first|].workloads[DeploymentKey(db) := Deployment(Some(3), 0)])
    ensures IsRun(after, second, Pair(web, db)) && AllSuspended(after[|second|], Pair(web, db))
  {
    var webLoad, dbLoad := Deployment(Some(3), 0), Deployment(Some(1), 1);
    var p := PairState(FRESH, FRESH, webLoad, dbLoad, false, false);
    StartReached(web, db, webLoad, dbLoad);
    before, first := [Start(web, db, webLoad, dbLoad)], [];
    before, first := DbGoesDown(before, first, web, db, p, 0, 1);
    PairIsClosed(web, db);
    after, second := WebFollows(before[|first|], web, db,
                                p.(db := SuspendedAfter(0, 1), dbLoad := Deployment(Some(0), 1)));
  }

  lemma WebFollows(c: Cluster, web: NamespacedName, db: NamespacedName, p: PairState)
      returns (after: seq<Cluster>, second: seq<Event>)
    requires TwoNames(web, db) && Shows(c, web, db, p)
    requires p.web == FRESH && p.db.phase == Suspended && !p.webPaused && p.webLoad == Deployment(Some(3), 0)
    ensures after != [] && after[0] == c.(workloads := c.workloads[DeploymentKey(db) := Deployment(Some(3), 0)])
    ensures Typed(after[0]) && Carries(after[0], Pair(web, db))
    ensures IsRun(after, second, Pair(web, db)) && AllSuspended(after[|second|], Pair(web, db))
  {
    var raised := c.(workloads := c.workloads[DeploymentKey(db) := Deployment(Some(3), 0)]);
    var p' := p.(dbLoad := Deployment(Some(3), 0));
    assert Shows(raised, web, db, p');
    PairCarried(raised, web, db, p');
    after, second := WebGoesDown([raised], [], web, db, p', 30, 3);
  }

  // ---- a lost count

  /** Why the status write must go through: after a run from two fresh objects web is taken to zero, the API server
      rejects the status update, and the original count of three is neither on the server nor saved. */
  lemma RejectedStatusLosesCount(web: NamespacedName, db: NamespacedName) returns (cs: seq<Cluster>, events: seq<Event>)
    requires TwoNames(web, db)
    ensures IsRun(cs, events, Pair(web, db)) && Untouched(cs[0], Pair(web, db))
    ensures Manages(cs[|events|], web, DeploymentKey(web)) && Accounted(cs[|events|], web, DeploymentKey(web), 3)
    ensures
      var after := Reconcile(cs[|events|], web, 30 * SECOND, CALM.(turns := [Rejected])).0;
      && !Accounted(after, web, DeploymentKey(web), 3) && DeploymentKey(web) in after.workloads && web in after.wds
      && after.workloads[DeploymentKey(web)].GetReplicas() == 0 && after.wds[web].status.saved.None?
  {
    var webLoad, dbLoad := Deployment(Some(3), 3), Deployment(Some(3), 0);
    var p := PairState(FRESH, FRESH, webLoad, dbLoad, false, false);
    StartReached(web, db, webLoad, dbLoad);
    cs, events := WebGoesDegraded([Start(web, db, webLoad, dbLoad)], [], web, db, p, 0);
    WebIsAccounted(cs[|events|], web, db, p.(web := DegradedAt(0)));
    LostAt(cs[|events|], web, db, p.(web := DegradedAt(0)));
  }

  lemma RejectedKeepsStatus(c: Cluster, id: NamespacedName, put: Put, requeue: Requeue, now: int)
    requires id in c.wds
    ensures PutStatus(c, id, put, requeue, now, [Rejected]).0 == c
  {
  }

  lemma ReadsDown(c: Cluster, web: NamespacedName, db: NamespacedName, p: PairState, now: int, turns: seq<Turn>)
    requires TwoNames(web, db) && Shows(c, web, db, p) && Down(p)
    ensures InputFor(c, web, now, CALM.(turns := turns)) == WebInput(web, db, p, now, NotOk)
  {
    ReadsPair(c, web, db, p, now);
    DownIsNotOk(p);
  }

  lemma WebIsZeroed(web: NamespacedName, db: NamespacedName, p: PairState)
    requires p.web == DegradedAt(0) && !p.webPaused && p.webLoad == Deployment(Some(3), 3)
    ensures var d := Decide(p.web, WebInput(web, db, p, 30 * SECOND, NotOk)); d.write == Scale(0) && d.put.Some?
  {
    DefaultWindow(web.name, db.name, web.namespace);
  }

  lemma WebIsAccounted(c: Cluster, web: NamespacedName, db: NamespacedName, p: PairState)
    requires TwoNames(web, db) && Shows(c, web, db, p) && p.web == DegradedAt(0) && p.webLoad == Deployment(Some(3), 3)
    ensures Manages(c, web, DeploymentKey(web)) && Accounted(c, web, DeploymentKey(web), 3)
  {
  }

  lemma LostAt(c: Cluster, web: NamespacedName, db: NamespacedName, p: PairState)
    requires TwoNames(web, db) && Shows(c, web, db, p) && Down(p)
    requires p.web == DegradedAt(0) && !p.webPaused && p.webLoad == Deployment(Some(3), 3)
    ensures
      var after := Reconcile(c, web, 30 * SECOND, CALM.(turns := [Rejected])).0;
      after == c.(workloads := c.workloads[DeploymentKey(web) := Deployment(Some(0), 3)])
  {
    var d := Decide(p.web, InputFor(c, web, 30 * SECOND, CALM.(turns := [Rejected])));
    ReadsDown(c, web, db, p, 30 * SECOND, [Rejected]);
    WebIsZeroed(web, db, p);
    var written := WriteWorkload(c, DependentKey(c.wds[web].spec, web.namespace), d.write);
    RejectedKeepsStatus(written, web, d.put.value, d.requeue, 30 * SECOND);
  }

  // ---- admission

  lemma OneEdgeClosesNothing(spec: Spec, namespace: string)
    requires |spec.dependsOn| == 1
    requires ResolveKey(spec.dependent, namespace) != ResolveDependsOnKey(spec.dependsOn[0], namespace)
    ensures !ClosesCycle({}, spec, namespace)
  {
    var es := {} + EdgesOf(spec, namespace);
    forall p ensures !IsCycleThrough(es, spec, namespace, p) {
      if |p| >= 4 && (p[0], p[1]) in es { assert (p[1], p[2]) !in es; }
    }
  }

  /** A new object that is alone in its namespace is admitted at once. */
  lemma AloneIsAdmitted(c: Cluster, id: NamespacedName)
    requires id in c.wds && !c.wds[id].deleting && !c.wds[id].finalizer
    requires !ClosesCycle({}, c.wds[id].spec, id.namespace)
    requires forall other :: other in c.wds && other != id ==> other.namespace != id.namespace
    ensures Reconcile(c, id, 0, CALM).0 == c.(wds := c.wds[id := c.wds[id].(finalizer := true)])
  {
    assert OtherEdges(c, id) == {};
  }

  /** Three objects named w, one in each namespace, whose dependents need one another in turn; `admitted` of them carry
      the finalizer. */
  function Triangle(x: string, y: string, z: string, a: string, b: string, c: string, admitted: nat): Cluster {
    Cluster(
      map[NamespacedName(x, "w") := Object(Needs(a, b, "shop"), FRESH).(finalizer := admitted > 0),
          NamespacedName(y, "w") := Object(Needs(b, c, "shop"), FRESH).(finalizer := admitted > 1),
          NamespacedName(z, "w") := Object(Needs(c, a, "shop"), FRESH).(finalizer := admitted > 2)],
      map[])
  }

  lemma TriangleAdmitsFirst(x: string, y: string, z: string, a: string, b: string, c: string)
    requires x != y && y != z && x != z && a != b
    ensures Reconcile(Triangle(x, y, z, a, b, c, 0), NamespacedName(x, "w"), 0, CALM).0 == Triangle(x, y, z, a, b, c, 1)
  {
    OneEdgeClosesNothing(Needs(a, b, "shop"), x);
    AloneIsAdmitted(Triangle(x, y, z, a, b, c, 0), NamespacedName(x, "w"));
  }

  lemma TriangleAdmitsSecond(x: string, y: string, z: string, a: string, b: string, c: string)
    requires x != y && y != z && x != z && b != c
    ensures Reconcile(Triangle(x, y, z, a, b, c, 1), NamespacedName(y, "w"), 0, CALM).0 == Triangle(x, y, z, a, b, c, 2)
  {
    OneEdgeClosesNothing(Needs(b, c, "shop"), y);
    AloneIsAdmitted(Triangle(x, y, z, a, b, c, 1), NamespacedName(y, "w"));
  }

  lemma TriangleAdmitsThird(x: string, y: string, z: string, a: string, b: string, c: string)
    requires x != y && y != z && x != z && c != a
    ensures Reconcile(Triangle(x, y, z, a, b, c, 2), NamespacedName(z, "w"), 0, CALM).0 == Triangle(x, y, z, a, b, c, 3)
  {
    OneEdgeClosesNothing(Needs(c, a, "shop"), z);
    AloneIsAdmitted(Triangle(x, y, z, a, b, c, 2), NamespacedName(z, "w"));
  }

  ghost function EveryEdge(c: Cluster): set<Edge> {
    set id, e | id in c.wds && e in EdgesOf(c.wds[id].spec, id.namespace) :: e
  }

  lemma EdgeOfNeeds(cluster: Cluster, id: NamespacedName, a: string, b: string)
    requires id in cluster.wds && cluster.wds[id].spec == Needs(a, b, "shop")
    ensures (Key("Deployment", "shop", a), Key("Deployment", "shop", b)) in EveryEdge(cluster)
  {
    assert Needs(a, b, "shop").dependsOn[0] in Needs(a, b, "shop").dependsOn;
    assert (Key("Deployment", "shop", a), Key("Deployment", "shop", b)) in EdgesOf(cluster.wds[id].spec, id.namespace);
  }

  /** Cycles are looked for within one namespace only: in any three namespaces there can be three WorkloadDependencies
      that are admitted one after the other although together they close a cycle. */
  lemma NamespacesAreCheckedApart(x: string, y: string, z: string, a: string, b: string, c: string)
      returns (p: seq<Key>)
    requires x != y && y != z && x != z && a != b && b != c && a != c
    ensures
      var first := Reconcile(Triangle(x, y, z, a, b, c, 0), NamespacedName(x, "w"), 0, CALM).0;
      var second := Reconcile(first, NamespacedName(y, "w"), 0, CALM).0;
      var third := Reconcile(second, NamespacedName(z, "w"), 0, CALM).0;
      (forall id :: id in third.wds ==> third.wds[id].finalizer) && IsCycle(EveryEdge(third), p)
  {
    TriangleAdmitsFirst(x, y, z, a, b, c);
    TriangleAdmitsSecond(x, y, z, a, b, c);
    TriangleAdmitsThird(x, y, z, a, b, c);
    var third := Triangle(x, y, z, a, b, c, 3);
    EdgeOfNeeds(third, NamespacedName(x, "w"), a, b);
    EdgeOfNeeds(third, NamespacedName(y, "w"), b, c);
    EdgeOfNeeds(third, NamespacedName(z, "w"), c, a);
    var k1, k2, k3 := Key("Deployment", "shop", a), Key("Deployment", "shop", b), Key("Deployment", "shop", c);
    p := [k1, k2, k3, k1];
    assert p[..3] == [k1, k2, k3];
  }

  // ---- a failed listing

  function KeyOf(name: string): Key { Key("Deployment", "shop", name) }

  lemma NeedsOneEdge(a: string, b: string, namespace: string, e: Edge)
    ensures e in EdgesOf(Needs(a, b, "shop"), namespace) <==> e == (KeyOf(a), KeyOf(b))
  {
    var deps := Needs(a, b, "shop").dependsOn;
    assert deps[0] in deps;
  }

  /** Three objects in one namespace whose dependents need one another in turn; the third may not exist yet. */
  function Chain(a: string, b: string, c: string, admitted: nat, third: bool): Cluster {
    var two := map[NamespacedName("shop", "u") := Object(Needs(a, b, "shop"), FRESH).(finalizer := admitted > 0),
                   NamespacedName("shop", "v") := Object(Needs(b, c, "shop"), FRESH).(finalizer := admitted > 1)];
    Cluster(
      if third
      then two[NamespacedName("shop", "w") := Object(Needs(c, a, "shop"), FRESH).(finalizer := admitted > 2)]
      else two,
      map[])
  }

  lemma ChainClosesNothing(es: set<Edge>, spec: Spec, a: string, b: string, c: string)
    requires a != b && b != c && a != c
    requires forall e :: e in es + EdgesOf(spec, "shop") ==> e in {(KeyOf(a), KeyOf(b)), (KeyOf(b), KeyOf(c))}
    ensures !ClosesCycle(es, spec, "shop")
  {
    var all := es + EdgesOf(spec, "shop");
    forall p ensures !IsCycleThrough(all, spec, "shop", p) {
      if |p| >= 4 && (p[0], p[1]) in all && (p[1], p[2]) in all { assert (p[2], p[3]) !in all; }
    }
  }

  lemma ChainAdmitsFirst(a: string, b: string, c: string)
    requires a != b && b != c && a != c
    ensures Reconcile(Chain(a, b, c, 0, false), NamespacedName("shop", "u"), 0, CALM).0 == Chain(a, b, c, 1, false)
  {
    var cluster, id := Chain(a, b, c, 0, false), NamespacedName("shop", "u");
    forall e | e in OtherEdges(cluster, id) + EdgesOf(cluster.wds[id].spec, "shop")
      ensures e in {(KeyOf(a), KeyOf(b)), (KeyOf(b), KeyOf(c))}
    {
      NeedsOneEdge(a, b, "shop", e);
      NeedsOneEdge(b, c, "shop", e);
    }
    ChainClosesNothing(OtherEdges(cluster, id), cluster.wds[id].spec, a, b, c);
  }

  lemma ChainAdmitsSecond(a: string, b: string, c: string)
    requires a != b && b != c && a != c
    ensures Reconcile(Chain(a, b, c, 1, false), NamespacedName("shop", "v"), 0, CALM).0 == Chain(a, b, c, 2, false)
  {
    var cluster, id := Chain(a, b, c, 1, false), NamespacedName("shop", "v");
    forall e | e in OtherEdges(cluster, id) + EdgesOf(cluster.wds[id].spec, "shop")
      ensures e in {(KeyOf(a), KeyOf(b)), (KeyOf(b), KeyOf(c))}
    {
      NeedsOneEdge(a, b, "shop", e);
      NeedsOneEdge(b, c, "shop", e);
    }
    ChainClosesNothing(OtherEdges(cluster, id), cluster.wds[id].spec, a, b, c);
  }

  lemma ChainIsCycle(a: string, b: string, c: string)
    requires a != b && b != c && a != c
    ensures !Admission.AdmittedAcyclic(Chain(a, b, c, 3, true))
  {
    var cluster := Chain(a, b, c, 3, true);
    var es := Admission.AdmittedEdges(cluster, "shop");
    NeedsOneEdge(a, b, "shop", (KeyOf(a), KeyOf(b)));
    NeedsOneEdge(b, c, "shop", (KeyOf(b), KeyOf(c)));
    NeedsOneEdge(c, a, "shop", (KeyOf(c), KeyOf(a)));
    assert cluster.wds[NamespacedName("shop", "u")].finalizer && (KeyOf(a), KeyOf(b)) in es;
    assert cluster.wds[NamespacedName("shop", "v")].finalizer && (KeyOf(b), KeyOf(c)) in es;
    assert cluster.wds[NamespacedName("shop", "w")].finalizer && (KeyOf(c), KeyOf(a)) in es;
    var p := [KeyOf(a), KeyOf(b), KeyOf(c), KeyOf(a)];
    assert p[..3] == [KeyOf(a), KeyOf(b), KeyOf(c)];
    assert IsCycle(es, p);
  }

  /** Why listings must succeed: two objects are admitted, a third is created, and the listing for its check fails; it
      is admitted although it closes a cycle. */
  lemma FailedListingAdmitsCycle(a: string, b: string, c: string) returns (cs: seq<Cluster>, events: seq<Event>)
    requires a != b && b != c && a != c
    ensures Admission.IsRun(cs, events) && forall id :: id in cs[0].wds ==> !cs[0].wds[id].finalizer
    ensures
      var last := cs[|events|];
      var after := Reconcile(last, NamespacedName("shop", "w"), 0, CALM.(list := true)).0;
      Admission.AdmittedAcyclic(last) && !Admission.AdmittedAcyclic(after)
  {
    var u, v, w := NamespacedName("shop", "u"), NamespacedName("shop", "v"), NamespacedName("shop", "w");
    cs := [Chain(a, b, c, 0, false), Chain(a, b, c, 1, false), Chain(a, b, c, 2, false), Chain(a, b, c, 2, true)];
    events := [Klink(u, 0, CALM), Klink(v, 0, CALM), Environment];
    ChainAdmitsFirst(a, b, c);
    ChainAdmitsSecond(a, b, c);
    ChainIsCycle(a, b, c);
    assert Admission.IsStep(cs[0], events[0], cs[1]);
    assert Admission.IsStep(cs[1], events[1], cs[2]);
    assert Admission.IsStep(cs[2], events[2], cs[3]);
    Admission.AdmittedNeverCyclic(cs, events, 3);
    assert Reconcile(cs[3], w, 0, CALM.(list := true)).0.wds == Chain(a, b, c, 3, true).wds;
  }
}
