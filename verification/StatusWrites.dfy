/** The status write with its conflict retries: what setStatus leaves on the API server, whatever the server answers. */
module StatusWrites {
  import opened Types
  import opened Machine
  import opened Conditions

  /** A WorkloadDependency object as stored on the API server. */
  datatype WD = WD(
    spec: Spec,
    paused: bool,
    deleting: bool,
    finalizer: bool,
    generation: int,
    status: Status,
    conditions: seq<Condition>)

  /** How the server meets one update attempt. A conflict means somebody else stored `stored` first. */
  datatype Turn =
    | Accepted
    | Conflict(stored: WD)
    | ConflictUnreadable(stored: WD)
    | Rejected

  datatype WriteResult = Written | Exhausted | Failed

  const MAX_RETRIES: nat := 3

  /** The script of answers; after its end the server accepts. */
  function TurnAt(turns: seq<Turn>, k: nat): Turn {
    if k < |turns| then turns[k] else Accepted
  }

  function Keep<T>(ours: Option<T>, theirs: Option<T>): Option<T> {
    if ours.Some? then ours else theirs
  }

  /** applyFields: our phase on top of the object held, with the fields that were set on entry put back. */
  function ApplyFields(held: WD, entry: Status, phase: Phase, now: int): WD {
    held.(
      status := Enter(held.status, phase, now).(
        saved := Keep(entry.saved, held.status.saved),
        degradedSince := Keep(entry.degradedSince, held.status.degradedSince),
        healthySince := Keep(entry.healthySince, held.status.healthySince)),
      conditions := WithCondition(held.conditions, phase, held.generation, now))
  }

  /** A status update replaces status and conditions of the stored object and nothing else. */
  function StoreStatus(stored: WD, held: WD): WD {
    stored.(status := held.status, conditions := held.conditions)
  }

  /** The remaining attempts of a retry loop with the given limit, `attempt` of them already made. */
  function WriteFrom(stored: WD, held: WD, entry: Status, phase: Phase, now: int,
                     turns: seq<Turn>, attempt: nat, limit: nat): (WD, WriteResult)
    requires attempt <= limit
    decreases limit - attempt
  {
    if attempt == limit then (stored, Exhausted)
    else match TurnAt(turns, attempt)
      case Accepted => (StoreStatus(stored, ApplyFields(held, entry, phase, now)), Written)
      case Rejected => (stored, Failed)
      case ConflictUnreadable(other) => (other, Failed)
      case Conflict(other) => WriteFrom(other, other, entry, phase, now, turns, attempt + 1, limit)
  }

  /** setStatus as a whole: `held` is the object in memory, whose status is the snapshot taken on entry. */
  function WriteStatus(stored: WD, held: WD, phase: Phase, now: int, turns: seq<Turn>): (WD, WriteResult) {
    WriteFrom(stored, held, held.status, phase, now, turns, 0, MAX_RETRIES)
  }

  /** How many attempts in a row end in a conflict before the loop stops. */
  function Conflicts(turns: seq<Turn>, attempt: nat, limit: nat): (n: nat)
    requires attempt <= limit
    ensures attempt + n <= limit
    ensures forall k :: attempt <= k < attempt + n ==> TurnAt(turns, k).Conflict?
    ensures attempt + n < limit ==> !TurnAt(turns, attempt + n).Conflict?
    decreases limit - attempt
  {
    if attempt < limit && TurnAt(turns, attempt).Conflict? then 1 + Conflicts(turns, attempt + 1, limit) else 0
  }

  /** The number of updates the loop sends: one more than there are conflicts, and never more than three. */
  function Attempts(turns: seq<Turn>): (n: nat)
    ensures 1 <= n <= MAX_RETRIES
  {
    var n := Conflicts(turns, 0, MAX_RETRIES);
    if n == MAX_RETRIES then n else n + 1
  }

  /** One attempt of the loop: what is left to do after it. */
  lemma OneAttempt(stored: WD, held: WD, entry: Status, phase: Phase, now: int, turns: seq<Turn>, i: nat)
    requires i < MAX_RETRIES && Conflicts(turns, 0, MAX_RETRIES) == i + Conflicts(turns, i, MAX_RETRIES)
    ensures
      var rest := WriteFrom(stored, held, entry, phase, now, turns, i, MAX_RETRIES);
      match TurnAt(turns, i)
      case Accepted => rest == (StoreStatus(stored, ApplyFields(held, entry, phase, now)), Written)
        && Attempts(turns) == i + 1
      case Rejected => rest == (stored, Failed) && Attempts(turns) == i + 1
      case ConflictUnreadable(other) => rest == (other, Failed) && Attempts(turns) == i + 1
      case Conflict(other) =>
        && rest == WriteFrom(other, other, entry, phase, now, turns, i + 1, MAX_RETRIES)
        && Conflicts(turns, 0, MAX_RETRIES) == i + 1 + Conflicts(turns, i + 1, MAX_RETRIES)
  {
  }

  /** The loop in closed form, for any limit: it stops at the first attempt that is not a conflict, or when the limit is
      reached; the object it builds on is the one re-read last. */
  lemma {:induction false} WriteFromClosed(stored: WD, held: WD, entry: Status, phase: Phase, now: int,
                                           turns: seq<Turn>, attempt: nat, limit: nat)
    requires attempt <= limit
    ensures
      var n := Conflicts(turns, attempt, limit);
      var base := if n == 0 then held else TurnAt(turns, attempt + n - 1).stored;
      var before := if n == 0 then stored else TurnAt(turns, attempt + n - 1).stored;
      WriteFrom(stored, held, entry, phase, now, turns, attempt, limit) ==
        if attempt + n == limit then (before, Exhausted)
        else match TurnAt(turns, attempt + n)
          case Accepted => (StoreStatus(before, ApplyFields(base, entry, phase, now)), Written)
          case Rejected => (before, Failed)
          case ConflictUnreadable(other) => (other, Failed)
          case Conflict(_) => (before, Failed)
    decreases limit - attempt
  {
    if attempt < limit && TurnAt(turns, attempt).Conflict? {
      var other := TurnAt(turns, attempt).stored;
      WriteFromClosed(other, other, entry, phase, now, turns, attempt + 1, limit);
    }
  }

  /** On success the stored object is in the requested phase, SuspendedAt is set exactly in Suspended, and every field
      that was set on entry is stored. */
  lemma WrittenMeans(stored: WD, held: WD, phase: Phase, now: int, turns: seq<Turn>)
    requires WriteStatus(stored, held, phase, now, turns).1 == Written
    ensures
      var after := WriteStatus(stored, held, phase, now, turns).0.status;
      && after.phase == phase
      && (after.suspendedAt.Some? <==> phase == Suspended)
      && (held.status.saved.Some? ==> after.saved == held.status.saved)
      && (held.status.degradedSince.Some? ==> after.degradedSince == held.status.degradedSince)
      && (held.status.healthySince.Some? ==> after.healthySince == held.status.healthySince)
  {
    WriteFromClosed(stored, held, held.status, phase, now, turns, 0, MAX_RETRIES);
  }

  /** Without a conflict the caller's status is stored exactly, clears included. */
  lemma UncontendedWriteIsExact(stored: WD, held: WD, phase: Phase, now: int, turns: seq<Turn>)
    requires TurnAt(turns, 0) == Accepted
    ensures
      var (after, result) := WriteStatus(stored, held, phase, now, turns);
      result == Written && after.status == Enter(held.status, phase, now)
      && after == stored.(
          status := after.status, conditions := WithCondition(held.conditions, phase, held.generation, now))
  {
    assert WriteFrom(stored, held, held.status, phase, now, turns, 0, MAX_RETRIES) ==
      (StoreStatus(stored, ApplyFields(held, held.status, phase, now)), Written);
  }

  /** When a clear is lost: after a successful write, a saved count, DegradedSince or HealthySince that the caller had
      cleared is stored again if and only if there was a conflict and the object re-read last carried it; then it is
      stored as re-read. */
  lemma ClearIsLostExactlyWhen(stored: WD, held: WD, phase: Phase, now: int, turns: seq<Turn>)
    requires WriteStatus(stored, held, phase, now, turns).1 == Written
    ensures
      var after := WriteStatus(stored, held, phase, now, turns).0.status;
      var n := Conflicts(turns, 0, MAX_RETRIES);
      if n == 0 then
        after.saved == held.status.saved && after.degradedSince == held.status.degradedSince
          && after.healthySince == held.status.healthySince
      else
        var last := TurnAt(turns, n - 1).stored.status;
        && (held.status.saved.None? ==> after.saved == last.saved)
        && (held.status.degradedSince.None? ==> after.degradedSince == last.degradedSince)
        && (held.status.healthySince.None? ==> after.healthySince == last.healthySince)
  {
    WriteFromClosed(stored, held, held.status, phase, now, turns, 0, MAX_RETRIES);
  }

  /** Every write that does not succeed leaves the server as the other writers left it. */
  lemma FailedWriteChangesNothing(stored: WD, held: WD, phase: Phase, now: int, turns: seq<Turn>)
    requires WriteStatus(stored, held, phase, now, turns).1 != Written
    ensures
      var after := WriteStatus(stored, held, phase, now, turns).0;
      || after == stored
      || exists k: nat :: k < MAX_RETRIES && TurnAt(turns, k) in {Conflict(after), ConflictUnreadable(after)}
  {
    WriteFromClosed(stored, held, held.status, phase, now, turns, 0, MAX_RETRIES);
    var n := Conflicts(turns, 0, MAX_RETRIES);
    var after := WriteStatus(stored, held, phase, now, turns).0;
    if n > 0 {
      assert TurnAt(turns, n - 1).Conflict?;
    }
    if after != stored {
      if n < MAX_RETRIES && TurnAt(turns, n) == ConflictUnreadable(after) {
      } else {
        assert TurnAt(turns, n - 1) == Conflict(after);
      }
    }
  }
}
