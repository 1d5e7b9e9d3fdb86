/** How fast klink acts when reconciles are never later than the requeue they asked for. */
module Response {
  import opened Types
  import opened Workloads
  import opened Machine
  import opened Runs
  import opened Hysteresis

  ghost predicate NoWrites(r: Run, a: nat, b: nat)
    requires r.Shaped() && b <= |r.inputs|
  {
    forall x: nat :: a <= x < b ==> r.decisions[x].write == NoWrite
  }

  // ---- from the first unhealthy observation to the suspension

  /** No window is running before reconcile j, and the workload is neither suspended nor released. */
  ghost predicate FirstUnhealthy(r: Run, j: nat)
    requires r.Shaped() && j < |r.inputs|
  {
    r.states[j].degradedSince.None? && r.states[j].phase !in {Suspended, Released}
  }

  ghost predicate StaysUnhealthy(r: Run, j: nat, m: nat, window: int)
    requires j <= m < |r.inputs|
  {
    forall x: nat :: j <= x <= m ==>
      Plain(r.inputs[x]) && SeesUnhealthy(r.inputs[x]) && DegradedWindow(r.inputs[x].spec.dependsOn) == window
  }

  /** Reconcile i brings the dependent to rest between one window and one window plus a second after reconcile j. */
  ghost predicate SuspendsInTime(r: Run, j: nat, i: nat, window: int)
    requires r.Shaped() && j < |r.inputs| && i < |r.inputs|
  {
    && r.inputs[j].now + window <= r.inputs[i].now <= r.inputs[j].now + window + SECOND
    && r.EntersSuspended(i) && r.inputs[i].dependent.Found?
    && r.decisions[i].write == SuspendWrite(r.inputs[i].dependent.w)
    && Apply(r.inputs[i].dependent.w, r.decisions[i].write).AtRest()
  }

  /** After reconcile m the window is still open and the next reconcile is due within it or at most a second later. */
  ghost predicate SuspensionPending(r: Run, j: nat, m: nat, window: int)
    requires r.Shaped() && j < |r.inputs| && m < |r.inputs|
  {
    && r.inputs[m].now < r.inputs[j].now + window
    && r.states[m + 1].phase == Degraded && r.states[m + 1].degradedSince == Some(r.inputs[j].now)
    && r.decisions[m].requeue.After?
    && r.inputs[m].now + r.decisions[m].requeue.delay <= r.inputs[j].now + window + SECOND
  }

  lemma StepFirstUnhealthy(s: Status, i: Input)
    requires Plain(i) && SeesUnhealthy(i) && s.phase !in {Suspended, Released} && s.degradedSince.None?
    ensures Step(s, i).phase == Degraded && Step(s, i).degradedSince == Some(i.now)
    ensures Decide(s, i).write == NoWrite && Decide(s, i).requeue == After(DegradedWindow(i.spec.dependsOn))
  {
  }

  lemma StepStillUnhealthy(s: Status, i: Input)
    requires Plain(i) && SeesUnhealthy(i) && s.phase == Degraded && s.degradedSince.Some?
    ensures
      var due := s.degradedSince.value + DegradedWindow(i.spec.dependsOn);
      if i.now < due
      then Step(s, i) == s && Decide(s, i).write == NoWrite && Decide(s, i).requeue == After(due - i.now + SECOND)
      else Step(s, i).phase == Suspended && Decide(s, i).write == SuspendWrite(i.dependent.w)
  {
  }

  lemma SuspendWriteRests(w: Workload)
    ensures Apply(w, SuspendWrite(w)).AtRest()
  {
  }

  lemma StepWithoutHealth(s: Status, i: Input)
    requires WellFormed(s) && s.phase !in {Suspended, Released} && s.degradedSince.None? && !SeesUnhealthy(i)
    ensures Step(s, i).phase !in {Suspended, Released} && Step(s, i).degradedSince.None?
  {
  }

  /** So it is after any history that was not suspended and has seen no unhealth since it last saw health: from the
      start of the run or from a healthy observation on, with failed reads and interruptions in between. */
  lemma {:induction false} FirstUnhealthyAfter(r: Run, a: nat, j: nat)
    requires r.Valid() && a <= j < |r.inputs| && r.states[a].phase != Suspended
    requires (a == 0 || SeesHealthy(r.inputs[a - 1]))
    requires forall x :: a <= x < j ==> !SeesUnhealthy(r.inputs[x])
    ensures FirstUnhealthy(r, j)
    decreases j
  {
    if a < j {
      FirstUnhealthyAfter(r, a, j - 1);
      assert r.Follows(j - 1);
      ReachableWellFormed(r, j - 1);
      StepWithoutHealth(r.states[j - 1], r.inputs[j - 1]);
    } else if a > 0 {
      assert r.Follows(a - 1);
    }
  }

  /** Real-time response to unhealth: in a punctual plain stretch of continuous unhealth, klink writes nothing before
      the window is over, and brings the dependent to rest within one second after it. */
  lemma {:induction false} UnhealthIsAnsweredInTime(r: Run, j: nat, m: nat, window: int)
    requires r.Valid() && j <= m < |r.inputs|
    requires FirstUnhealthy(r, j) && StaysUnhealthy(r, j, m, window) && r.Punctual(j, m)
    ensures (SuspensionPending(r, j, m, window) && NoWrites(r, j, m + 1))
      || exists i: nat :: j < i <= m && SuspendsInTime(r, j, i, window) && NoWrites(r, j, i)
    decreases m
  {
    assert r.Follows(m);
    if m == j {
      StepFirstUnhealthy(r.states[j], r.inputs[j]);
    } else {
      UnhealthIsAnsweredInTime(r, j, m - 1, window);
      if SuspensionPending(r, j, m - 1, window) && NoWrites(r, j, m) {
        assert r.OnTime(m - 1);
        StepStillUnhealthy(r.states[m], r.inputs[m]);
        SuspendWriteRests(r.inputs[m].dependent.w);
        if r.inputs[m].now >= r.inputs[j].now + window {
          assert SuspendsInTime(r, j, m, window);
        }
      }
    }
  }

  // ---- from the first healthy observation to the restore

  /** Reconcile h is the first of the suspension entered at e to see health. */
  ghost predicate FirstHealthy(r: Run, e: nat, h: nat)
    requires r.Shaped() && e < h < |r.inputs|
  {
    r.EntersSuspended(e) && SuspendedThroughout(r, e + 1, h) && NoneHealthy(r, e + 1, h)
  }

  ghost predicate StaysHealthy(r: Run, h: nat, m: nat, window: int)
    requires h <= m < |r.inputs|
  {
    forall x: nat :: h <= x <= m ==>
      Plain(r.inputs[x]) && SeesHealthy(r.inputs[x]) && RecoveryWindow(r.inputs[x].spec.dependsOn) == window
  }

  ghost predicate RestoresInTime(r: Run, h: nat, i: nat, window: int)
    requires r.Shaped() && h < |r.inputs| && i < |r.inputs|
  {
    && r.inputs[h].now + window <= r.inputs[i].now <= r.inputs[h].now + window + SECOND
    && r.Recovers(i)
    && r.decisions[i].write == RestoreWrite(r.states[i], r.inputs[i].dependent.w)
    && BroughtBack(r.states[i].saved, r.inputs[i].dependent.w, Apply(r.inputs[i].dependent.w, r.decisions[i].write))
  }

  ghost predicate RestorePending(r: Run, h: nat, m: nat, window: int)
    requires r.Shaped() && h < |r.inputs| && m < |r.inputs|
  {
    && r.inputs[m].now < r.inputs[h].now + window
    && r.states[m + 1].phase == Suspended && r.states[m + 1].healthySince == Some(r.inputs[h].now)
    && r.decisions[m].requeue.After?
    && r.inputs[m].now + r.decisions[m].requeue.delay <= r.inputs[h].now + window + SECOND
  }

  lemma {:induction false} NoHealthYet(r: Run, e: nat, k: nat)
    requires r.Valid() && e < k < |r.states|
    requires r.EntersSuspended(e) && SuspendedThroughout(r, e + 1, k) && NoneHealthy(r, e + 1, k)
    ensures r.states[k].healthySince.None?
    decreases k
  {
    assert r.Follows(k - 1);
    ReachableWellFormed(r, k - 1);
    StepHealthySince(r.states[k - 1], r.inputs[k - 1]);
    if e + 1 < k {
      NoHealthYet(r, e, k - 1);
    }
  }

  lemma StepFirstHealthy(s: Status, i: Input)
    requires Plain(i) && SeesHealthy(i) && s.phase == Suspended && s.healthySince.None?
    ensures Step(s, i).phase == Suspended && Step(s, i).healthySince == Some(i.now)
    ensures Decide(s, i).write == NoWrite && Decide(s, i).requeue == After(RecoveryWindow(i.spec.dependsOn))
  {
  }

  lemma StepStillHealthy(s: Status, i: Input)
    requires Plain(i) && SeesHealthy(i) && s.phase == Suspended && s.healthySince.Some?
    ensures
      var due := s.healthySince.value + RecoveryWindow(i.spec.dependsOn);
      if i.now < due
      then Step(s, i) == s && Decide(s, i).write == NoWrite && Decide(s, i).requeue == After(due - i.now + SECOND)
      else Step(s, i).phase == Healthy && Decide(s, i).write == RestoreWrite(s, i.dependent.w)
  {
  }

  /** Real-time response to recovery: a punctual plain stretch of continuous health, first seen at h during a
      suspension, restores no earlier than the recovery window and at most one second after it. */
  lemma {:induction false} HealthIsAnsweredInTime(r: Run, e: nat, h: nat, m: nat, window: int)
    requires r.Valid() && e < h <= m < |r.inputs|
    requires FirstHealthy(r, e, h) && StaysHealthy(r, h, m, window) && r.Punctual(h, m)
    ensures (RestorePending(r, h, m, window) && NoWrites(r, h, m + 1))
      || exists i: nat :: h < i <= m && RestoresInTime(r, h, i, window) && NoWrites(r, h, i)
    decreases m
  {
    assert r.Follows(m);
    if m == h {
      NoHealthYet(r, e, h);
      StepFirstHealthy(r.states[h], r.inputs[h]);
    } else {
      HealthIsAnsweredInTime(r, e, h, m - 1, window);
      if RestorePending(r, h, m - 1, window) && NoWrites(r, h, m) {
        assert r.OnTime(m - 1);
        StepStillHealthy(r.states[m], r.inputs[m]);
        if r.inputs[m].now >= r.inputs[h].now + window {
          RestoreBringsBack(r.states[m], r.inputs[m].dependent.w);
          assert RestoresInTime(r, h, m, window);
        }
      }
    }
  }

  // ---- the cap on a suspension

  function Max(a: int, b: int): int { if a < b then b else a }

  ghost predicate StaysCapped(r: Run, e: nat, m: nat, cap: int)
    requires m < |r.inputs|
  {
    forall x: nat :: e < x <= m ==>
      Plain(r.inputs[x]) && SeesUnhealthy(r.inputs[x]) && r.inputs[x].spec.maxSuspendDuration == cap
  }

  ghost predicate ReleasesInTime(r: Run, e: nat, i: nat, cap: int)
    requires r.Shaped() && e < |r.inputs| && i < |r.inputs|
  {
    && r.inputs[e].now + cap <= r.inputs[i].now <= r.inputs[e].now + Max(cap + SECOND, 15 * SECOND)
    && r.Releases(i) && r.inputs[i].dependent.Found?
    && r.decisions[i].write == RestoreWrite(r.states[i], r.inputs[i].dependent.w)
    && BroughtBack(r.states[i].saved, r.inputs[i].dependent.w, Apply(r.inputs[i].dependent.w, r.decisions[i].write))
  }

  ghost predicate ReleasePending(r: Run, e: nat, m: nat, cap: int)
    requires r.Shaped() && e < |r.inputs| && m < |r.inputs|
  {
    && r.inputs[m].now < r.inputs[e].now + cap
    && r.states[m + 1].phase == Suspended && r.states[m + 1].suspendedAt == Some(r.inputs[e].now)
    && r.decisions[m].requeue.After?
    && r.inputs[m].now + r.decisions[m].requeue.delay <= r.inputs[e].now + Max(cap + SECOND, 15 * SECOND)
  }

  lemma StepEnters(s: Status, i: Input)
    requires WellFormed(s) && s.phase != Suspended && Step(s, i).phase == Suspended
    ensures Step(s, i).suspendedAt == Some(i.now) && Decide(s, i).requeue == After(15 * SECOND)
  {
  }

  lemma StepCapped(s: Status, i: Input)
    requires Plain(i) && SeesUnhealthy(i) && s.phase == Suspended && s.suspendedAt.Some?
    requires i.spec.maxSuspendDuration > 0
    ensures
      var due := s.suspendedAt.value + i.spec.maxSuspendDuration;
      if i.now < due
      then Step(s, i) == s && Decide(s, i).write == NoWrite && Decide(s, i).requeue == After(due - i.now + SECOND)
      else Step(s, i).phase == Released && Decide(s, i).write == RestoreWrite(s, i.dependent.w)
  {
  }

  /** The suspension cap: with maxSuspendDuration set and every later reconcile punctual and unhealthy, the workload
      is force-restored no earlier than the cap and no later than the cap plus a second (or the first 15s requeue). */
  lemma {:induction false} CapIsKeptInTime(r: Run, e: nat, m: nat, cap: int)
    requires r.Valid() && e <= m < |r.inputs| && cap > 0
    requires r.EntersSuspended(e) && StaysCapped(r, e, m, cap) && r.Punctual(e, m)
    ensures (ReleasePending(r, e, m, cap) && NoWrites(r, e + 1, m + 1) && SuspendedThroughout(r, e + 1, m + 1))
      || exists i: nat ::
           && e < i <= m && ReleasesInTime(r, e, i, cap)
           && NoWrites(r, e + 1, i) && SuspendedThroughout(r, e + 1, i)
    decreases m
  {
    assert r.Follows(m);
    if m == e {
      ReachableWellFormed(r, e);
      StepEnters(r.states[e], r.inputs[e]);
    } else {
      CapIsKeptInTime(r, e, m - 1, cap);
      if ReleasePending(r, e, m - 1, cap) && NoWrites(r, e + 1, m) {
        assert r.OnTime(m - 1);
        StepCapped(r.states[m], r.inputs[m]);
        if r.inputs[m].now >= r.inputs[e].now + cap {
          RestoreBringsBack(r.states[m], r.inputs[m].dependent.w);
          assert ReleasesInTime(r, e, m, cap);
        }
      }
    }
  }

  // ---- the cap, whatever is observed

  ghost predicate CappedStretch(r: Run, e: nat, m: nat, cap: int, window: int)
    requires m < |r.inputs|
  {
    forall x: nat :: e < x <= m ==>
      Plain(r.inputs[x]) && r.inputs[x].spec.maxSuspendDuration == cap
        && RecoveryWindow(r.inputs[x].spec.dependsOn) == window
  }

  /** While a suspension entered at `start` lasts: the next reconcile is due by the cap, or once health was seen, which
      was by the cap, one recovery window later. */
  ghost predicate OnTheWayOut(s: Status, next: int, start: int, cap: int, window: int) {
    var limit := start + Max(cap + SECOND, 15 * SECOND);
    && s.phase == Suspended && s.suspendedAt == Some(start)
    && if s.healthySince.None? then next <= limit else s.healthySince.value <= limit && next <= limit + window + SECOND
  }

  lemma StepOnTheWayOut(s: Status, i: Input, start: int, cap: int, window: int)
    requires Plain(i) && i.spec.maxSuspendDuration == cap > 0 && RecoveryWindow(i.spec.dependsOn) == window
    requires OnTheWayOut(s, i.now, start, cap, window) && Step(s, i).phase == Suspended
    ensures i.now < start + Max(cap + SECOND, 15 * SECOND) + window
    ensures Decide(s, i).write == NoWrite && Decide(s, i).requeue.After?
    ensures OnTheWayOut(Step(s, i), i.now + Decide(s, i).requeue.delay, start, cap, window)
  {
  }

  lemma OnTheWayOutEarlier(s: Status, later: int, earlier: int, start: int, cap: int, window: int)
    requires OnTheWayOut(s, later, start, cap, window) && earlier <= later
    ensures OnTheWayOut(s, earlier, start, cap, window)
  {
  }

  /** A cap ends every suspension, whatever is observed: in a punctual plain stretch with maxSuspendDuration set, a
      suspension entered at t makes no write while it lasts, no reconcile later than t + max(cap + 1s, 15s) + recovery
      window finds it going on, and the next reconcile is never due more than a second after that. */
  lemma {:induction false} CapEndsEverySuspension(r: Run, e: nat, m: nat, cap: int, window: int)
    requires r.Valid() && e <= m < |r.inputs| && cap > 0 && window > 0
    requires r.EntersSuspended(e) && CappedStretch(r, e, m, cap, window) && r.Punctual(e, m)
    requires SuspendedThroughout(r, e + 1, m + 1)
    ensures r.decisions[m].requeue.After?
    ensures OnTheWayOut(r.states[m + 1], r.inputs[m].now + r.decisions[m].requeue.delay, r.inputs[e].now, cap, window)
    ensures m > e ==>
      && r.decisions[m].write == NoWrite
      && r.inputs[m].now < r.inputs[e].now + Max(cap + SECOND, 15 * SECOND) + window
    decreases m
  {
    assert r.Follows(m);
    ReachableWellFormed(r, m);
    if m == e {
      StepEnters(r.states[e], r.inputs[e]);
      StepHealthySince(r.states[e], r.inputs[e]);
    } else {
      CapEndsEverySuspension(r, e, m - 1, cap, window);
      assert r.OnTime(m - 1);
      var due := r.inputs[m - 1].now + r.decisions[m - 1].requeue.delay;
      OnTheWayOutEarlier(r.states[m], due, r.inputs[m].now, r.inputs[e].now, cap, window);
      StepOnTheWayOut(r.states[m], r.inputs[m], r.inputs[e].now, cap, window);
    }
  }

  // ---- coming back

  /** No time recorded in the status lies in the future. */
  predicate StampsPast(s: Status, now: int) {
    && (s.degradedSince.Some? ==> s.degradedSince.value <= now)
    && (s.suspendedAt.Some? ==> s.suspendedAt.value <= now)
    && (s.healthySince.Some? ==> s.healthySince.value <= now)
  }

  predicate PutsPast(d: Decision, now: int) {
    d.put.Some? ==> StampsPast(d.put.value.local, now)
  }

  lemma HandlersPutPast(s: Status, w: Workload, i: Input)
    requires StampsPast(s, i.now)
    ensures PutsPast(OnHealthy(s, w, i), i.now) && PutsPast(OnDegraded(s, w, i), i.now)
  {
  }

  lemma SuspendedPutsPast(s: Status, w: Workload, i: Input)
    requires StampsPast(s, i.now)
    ensures PutsPast(OnSuspended(s, w, i), i.now)
  {
  }

  lemma StepStampsPast(s: Status, i: Input)
    requires StampsPast(s, i.now)
    ensures StampsPast(Step(s, i), i.now)
  {
    if i.dependent.Found? {
      HandlersPutPast(s, i.dependent.w, i);
      SuspendedPutsPast(s, i.dependent.w, i);
    }
    assert PutsPast(Decide(s, i), i.now);
  }

  ghost predicate ClockForward(r: Run) {
    forall j, k :: 0 <= j <= k < |r.inputs| ==> r.inputs[j].now <= r.inputs[k].now
  }

  lemma {:induction false} StampsStayPast(r: Run, k: nat)
    requires r.Valid() && ClockForward(r) && k < |r.inputs|
    ensures StampsPast(r.states[k], r.inputs[k].now)
    decreases k
  {
    if k > 0 {
      StampsStayPast(r, k - 1);
      assert r.Follows(k - 1);
      StepStampsPast(r.states[k - 1], r.inputs[k - 1]);
      assert r.inputs[k - 1].now <= r.inputs[k].now;
    }
  }

  /** The longest requeue a reconcile may ask for: 30s, or a second more than the longest window or the cap. */
  function LongestWait(spec: Spec): int {
    var windows := Max(DegradedWindow(spec.dependsOn), RecoveryWindow(spec.dependsOn));
    Max(30 * SECOND, Max(windows, spec.maxSuspendDuration) + SECOND)
  }

  lemma RequeueIsBounded(s: Status, i: Input)
    requires StampsPast(s, i.now)
    ensures
      var requeue := Decide(s, i).requeue;
      requeue.OnError? || (requeue.After? && 0 < requeue.delay <= LongestWait(i.spec))
  {
  }

  /** klink never looks away for long: in every run with a clock that does not run backwards, each reconcile fails and
      is retried or asks for a positive and bounded delay, and at every moment of a punctual stretch the latest
      reconcile is no longer ago than the bound. */
  lemma {:induction false} AlwaysComesBack(r: Run, a: nat, b: nat, bound: int, t: int)
    requires r.Valid() && ClockForward(r) && a <= b < |r.inputs| && r.Punctual(a, b)
    requires forall k :: a <= k <= b ==> LongestWait(r.inputs[k].spec) <= bound
    requires r.inputs[a].now <= t <= r.inputs[b].now
    ensures
      var requeue := r.decisions[b].requeue;
      requeue.OnError? || (requeue.After? && 0 < requeue.delay <= bound)
    ensures exists k: nat :: a <= k <= b && r.inputs[k].now <= t <= r.inputs[k].now + bound
    decreases b
  {
    assert r.Follows(b);
    StampsStayPast(r, b);
    RequeueIsBounded(r.states[b], r.inputs[b]);
    if t == r.inputs[b].now {
      assert LongestWait(r.inputs[b].spec) >= 0;
    } else if t <= r.inputs[b - 1].now {
      AlwaysComesBack(r, a, b - 1, bound, t);
    } else {
      AlwaysComesBack(r, a, b - 1, bound, r.inputs[b - 1].now);
      assert r.OnTime(b - 1);
    }
  }

  predicate StrictUncapped(i: Input) {
    Plain(i) && SeesUnhealthy(i) && i.spec.mode == Strict && i.spec.maxSuspendDuration <= 0
  }

  lemma StepStrict(s: Status, i: Input)
    requires StrictUncapped(i) && s.phase == Suspended
    ensures Decide(s, i).requeue == After(15 * SECOND) && Step(s, i).phase == Suspended
    ensures Apply(i.dependent.w, Decide(s, i).write).AtRest()
  {
  }

  /** Strict mode reverts a manual scale-up within 15 seconds: after an unhealthy reconcile in an uncapped suspension,
      the next punctual one comes at most 15s later and, if still unhealthy, leaves the workload at rest whatever was
      done to it. */
  lemma StrictRevertsInTime(r: Run, k: nat)
    requires r.Valid() && k + 1 < |r.inputs| && r.states[k].phase == Suspended && r.OnTime(k)
    requires StrictUncapped(r.inputs[k]) && StrictUncapped(r.inputs[k + 1])
    ensures r.inputs[k + 1].now <= r.inputs[k].now + 15 * SECOND
    ensures Apply(r.inputs[k + 1].dependent.w, r.decisions[k + 1].write).AtRest() && r.states[k + 2].phase == Suspended
  {
    assert r.Follows(k) && r.Follows(k + 1);
    StepStrict(r.states[k], r.inputs[k]);
    StepStrict(r.states[k + 1], r.inputs[k + 1]);
  }
}
