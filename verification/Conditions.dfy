/** The standard status.conditions list and the "Ready" entry klink keeps in it. Messages are not modelled. */
module Conditions {
  import opened Types

  datatype ConditionStatus = ConditionTrue | ConditionFalse | ConditionUnknown

  datatype Condition = Condition(
    kind: string, status: ConditionStatus, reason: string, lastTransition: int, generation: int)

  datatype Mapping = Mapping(status: ConditionStatus, reason: string)

  const READY := "Ready"

  /** The phases that show in the condition; Released and Observed leave it alone. */
  function MappingOf(phase: Phase): Option<Mapping> {
    match phase
    case Healthy => Some(Mapping(ConditionTrue, "DependenciesHealthy"))
    case Degraded => Some(Mapping(ConditionFalse, "DependencyDegraded"))
    case Suspended => Some(Mapping(ConditionFalse, "DependentSuspended"))
    case Paused => Some(Mapping(ConditionUnknown, "Paused"))
    case Unknown => Some(Mapping(ConditionUnknown, "DependentNotFound"))
    case _ => None
  }

  /** The position of the first "Ready" entry, or the length of the list. */
  function ReadyIndex(conditions: seq<Condition>): (i: nat)
    ensures i <= |conditions|
    ensures i < |conditions| ==> conditions[i].kind == READY
    ensures forall j :: 0 <= j < i ==> conditions[j].kind != READY
  {
    if conditions == [] then 0
    else if conditions[0].kind == READY then 0
    else
      assert forall j :: 1 <= j < |conditions| ==> conditions[1..][j - 1] == conditions[j];
      1 + ReadyIndex(conditions[1..])
  }

  /** The list after setCondition: the "Ready" entry carries the new mapping, its transition time moves only when
      status or reason change, every other entry stays. */
  function WithCondition(conditions: seq<Condition>, phase: Phase, generation: int, now: int): seq<Condition> {
    var mapping := MappingOf(phase);
    if mapping.None? then conditions
    else
      var Mapping(status, reason) := mapping.value;
      var i := ReadyIndex(conditions);
      if i == |conditions| then conditions + [Condition(READY, status, reason, now, generation)]
      else
        var same := conditions[i].status == status && conditions[i].reason == reason;
        var time := if same then conditions[i].lastTransition else now;
        conditions[i := Condition(READY, status, reason, time, generation)]
  }

  /** The loop of setCondition, entry by entry. */
  method SetCondition(conditions: seq<Condition>, phase: Phase, generation: int, now: int)
      returns (updated: seq<Condition>)
    ensures updated == WithCondition(conditions, phase, generation, now)
  {
    updated := conditions;
    var mapping := MappingOf(phase);
    if mapping.None? {
      return;
    }
    var spec := mapping.value;
    for i := 0 to |conditions|
      invariant updated == conditions
      invariant forall j :: 0 <= j < i ==> conditions[j].kind != READY
    {
      var c := conditions[i];
      if c.kind == READY {
        assert ReadyIndex(conditions) == i;
        if c.status == spec.status && c.reason == spec.reason {
          updated := updated[i := c.(generation := generation)];
          return;
        }
        updated := updated[i := Condition(READY, spec.status, spec.reason, now, generation)];
        return;
      }
    }
    updated := updated + [Condition(READY, spec.status, spec.reason, now, generation)];
  }

  // ---- histories of calls

  datatype Call = Call(phase: Phase, generation: int, now: int)

  /** The conditions after a sequence of calls, starting from an empty list. */
  function AfterCalls(calls: seq<Call>): seq<Condition> {
    if calls == [] then []
    else
      var last := calls[|calls| - 1];
      WithCondition(AfterCalls(calls[..|calls| - 1]), last.phase, last.generation, last.now)
  }

  /** The phases that show in the condition. */
  predicate Shows(phase: Phase) { phase in {Healthy, Degraded, Suspended, Paused, Unknown} }

  /** The calls whose phase shows. */
  ghost function Shown(calls: seq<Call>): seq<Call> {
    if calls == [] then []
    else
      var last := calls[|calls| - 1];
      Shown(calls[..|calls| - 1]) + if Shows(last.phase) then [last] else []
  }

  /** The entry says this phase: Ready is true when healthy, false when degraded or suspended, unknown when paused or
      when the dependent is missing, each with its own reason. */
  predicate Says(c: Condition, phase: Phase, since: int, generation: int) {
    && c.kind == "Ready" && c.lastTransition == since && c.generation == generation
    && (phase == Healthy ==> c.status == ConditionTrue && c.reason == "DependenciesHealthy")
    && (phase == Degraded ==> c.status == ConditionFalse && c.reason == "DependencyDegraded")
    && (phase == Suspended ==> c.status == ConditionFalse && c.reason == "DependentSuspended")
    && (phase == Paused ==> c.status == ConditionUnknown && c.reason == "Paused")
    && (phase == Unknown ==> c.status == ConditionUnknown && c.reason == "DependentNotFound")
  }

  /** Call a starts the present stretch of m: every call from a on has the same phase, the one before has another. */
  ghost predicate StartsStretch(m: seq<Call>, a: nat) {
    && a < |m|
    && (forall j :: a <= j < |m| ==> m[j].phase == m[|m| - 1].phase)
    && (a > 0 ==> m[a - 1].phase != m[a].phase)
  }

  lemma FirstEntry(call: Call)
    requires Shows(call.phase)
    ensures
      var after := WithCondition([], call.phase, call.generation, call.now);
      |after| == 1 && Says(after[0], call.phase, call.now, call.generation)
  {
  }

  lemma DifferentReasons(a: Phase, b: Phase)
    requires Shows(a) && Shows(b) && a != b
    ensures MappingOf(a).value != MappingOf(b).value
  {
    assert "DependencyDegraded"[9] == 'y' && "DependentSuspended"[9] == 'S';
    assert |"Paused"| == 6 && |"DependentNotFound"| == 17;
  }

  lemma NextEntry(c: Condition, phase: Phase, since: int, generation: int, call: Call)
    requires Shows(phase) && Shows(call.phase) && Says(c, phase, since, generation)
    ensures
      var after := WithCondition([c], call.phase, call.generation, call.now);
      |after| == 1 && Says(after[0], call.phase, if call.phase == phase then since else call.now, call.generation)
  {
    if call.phase != phase { DifferentReasons(call.phase, phase); }
  }

  lemma StretchExtends(m: seq<Call>, a: nat, last: Call)
    requires StartsStretch(m, a)
    ensures StartsStretch(m + [last], if m[|m| - 1].phase == last.phase then a else |m|)
  {
  }

  /** After these calls the list is empty if no phase showed, and otherwise holds one entry that says the latest such
      phase, with the time of the call a that began its present stretch. */
  ghost predicate Tells(calls: seq<Call>, a: nat) {
    var m, conditions := Shown(calls), AfterCalls(calls);
    if m == [] then conditions == []
    else
      && StartsStretch(m, a) && Shows(m[|m| - 1].phase)
      && |conditions| == 1 && Says(conditions[0], m[|m| - 1].phase, m[a].now, m[|m| - 1].generation)
  }

  lemma NextTells(before: seq<Call>, last: Call, a: nat) returns (a': nat)
    requires Tells(before, a)
    ensures Tells(before + [last], a')
  {
    var calls := before + [last];
    assert calls[..|calls| - 1] == before;
    var m := Shown(before);
    a' := a;
    if Shows(last.phase) {
      assert Shown(calls) == m + [last];
      if m == [] {
        FirstEntry(last);
        a' := 0;
      } else {
        var entry := AfterCalls(before)[0];
        assert AfterCalls(before) == [entry];
        NextEntry(entry, m[|m| - 1].phase, m[a].now, m[|m| - 1].generation, last);
        StretchExtends(m, a, last);
        a' := if m[|m| - 1].phase == last.phase then a else |m|;
      }
    } else {
      assert Shown(calls) == m;
    }
  }

  /** The conditions list over any history of calls: it holds one entry, "Ready", as soon as a phase that shows was
      reported and none before; the entry says the latest such phase, and its transition time is that of the call which
      began the present stretch of that phase. Released, Observed and the empty phase leave the list alone. */
  lemma {:induction false} ReadyFollowsHistory(calls: seq<Call>) returns (a: nat)
    ensures Tells(calls, a)
    decreases |calls|
  {
    a := 0;
    if calls != [] {
      var before := calls[..|calls| - 1];
      a := ReadyFollowsHistory(before);
      a := NextTells(before, calls[|calls| - 1], a);
      assert before + [calls[|calls| - 1]] == calls;
    }
  }

  /** In any list, whoever else writes to it: a call keeps every entry in its place except the first "Ready" one, which
      says the phase afterwards, and adds one at the end when there was none. */
  lemma OtherEntriesStay(conditions: seq<Condition>, phase: Phase, generation: int, now: int)
    ensures
      var after := WithCondition(conditions, phase, generation, now);
      var i := ReadyIndex(conditions);
      if !Shows(phase) then after == conditions
      else
        && |after| == (if i == |conditions| then i + 1 else |conditions|)
        && (forall j :: 0 <= j < |conditions| && j != i ==> after[j] == conditions[j])
        && Says(after[i], phase, after[i].lastTransition, generation)
        && (i == |conditions| || after[i].status != conditions[i].status || after[i].reason != conditions[i].reason ==>
              after[i].lastTransition == now)
        && (i < |conditions| && after[i].status == conditions[i].status && after[i].reason == conditions[i].reason ==>
              after[i].lastTransition == conditions[i].lastTransition)
  {
  }
}
