/**
 Backup locks on router groups: a call checks the write lock, then the read lock, then reads,
 then writes, and anything may happen in between (db/db_sql.go).
 */
module RouterGroupLocks {
  import opened Common
  import opened PortSearch
  import opened PortReservation

  datatype Op = SaveOp(group: RouterGroup) | DeleteOp(guid: string)

  /** How far a call to save or delete a group has come. */
  datatype Call =
    | Entered(op: Op)
    | PassedWriteLock(op: Op)
    | PassedReadLock(op: Op)
    | HasRead(op: Op, existing: RouterGroup)

  datatype State = State(groups: seq<RouterGroup>, readLock: uint32, writeLock: uint32, calls: map<nat, Call>)

  datatype Lock = Reads | Writes

  datatype Action =
    | Begin(id: nat, op: Op)
    | CheckWriteLock(id: nat)
    | CheckReadLock(id: nat)
    | ReadGroup(id: nat, fails: bool)
    | WriteGroup(id: nat, fails: bool)
    | SetLock(lock: Lock)
    | ClearLock(lock: Lock)

  function TargetGuid(op: Op): string {
    if op.SaveOp? then op.group.guid else op.guid
  }

  /** What the write does, given what the call read before: an insert fails on a key that is there. */
  function Written(groups: seq<RouterGroup>, op: Op, existing: RouterGroup): seq<RouterGroup> {
    if op.DeleteOp? then Without(groups, op.guid)
    else if existing.guid == op.group.guid then Put(groups, Merged(existing, op.group))
    else if ByGuid(groups, op.group.guid).Some? then groups
    else groups + [op.group]
  }

  ghost predicate Enabled(s: State, a: Action) {
    match a
    case Begin(id, _) => id !in s.calls
    case CheckWriteLock(id) => id in s.calls && s.calls[id].Entered?
    case CheckReadLock(id) => id in s.calls && s.calls[id].PassedWriteLock?
    case ReadGroup(id, _) => id in s.calls && s.calls[id].PassedReadLock?
    case WriteGroup(id, _) => id in s.calls && s.calls[id].HasRead?
    case SetLock(_) => true
    case ClearLock(_) => true
  }

  ghost function Act(s: State, a: Action): State
    requires Enabled(s, a)
  {
    match a
    case Begin(id, op) => s.(calls := s.calls[id := Entered(op)])
    case CheckWriteLock(id) =>
      s.(calls := if s.writeLock != 0 then s.calls - {id} else s.calls[id := PassedWriteLock(s.calls[id].op)])
    case CheckReadLock(id) =>
      s.(calls := if s.readLock != 0 then s.calls - {id} else s.calls[id := PassedReadLock(s.calls[id].op)])
    case ReadGroup(id, fails) =>
      var op := s.calls[id].op;
      var i := ByGuid(s.groups, TargetGuid(op));
      var existing := if i.Some? then s.groups[i.value] else NO_GROUP;
      s.(calls := if fails || (op.DeleteOp? && existing == NO_GROUP) then s.calls - {id}
                  else s.calls[id := HasRead(op, existing)])
    case WriteGroup(id, fails) =>
      s.(calls := s.calls - {id},
         groups := if fails then s.groups else Written(s.groups, s.calls[id].op, s.calls[id].existing))
    case SetLock(lock) => if lock == Reads then s.(readLock := 1) else s.(writeLock := 1)
    case ClearLock(lock) => if lock == Reads then s.(readLock := 0) else s.(writeLock := 0)
  }

  predicate IsSet(s: State, lock: Lock) {
    if lock == Reads then s.readLock != 0 else s.writeLock != 0
  }

  /** The call has passed the check of that lock. */
  predicate Past(c: Call, lock: Lock) {
    match c
    case Entered(_) => false
    case PassedWriteLock(_) => lock == Writes
    case PassedReadLock(_) => true
    case HasRead(_, _) => true
  }

  ghost function PastCalls(s: State, lock: Lock): set<nat> {
    set id | id in s.calls && Past(s.calls[id], lock)
  }

  // ---------------------------------------------------------------- histories

  ghost predicate History(start: State, h: seq<Action>)
    decreases |h|, 0
  {
    h == [] || (History(start, h[..|h| - 1]) && Enabled(At(start, h[..|h| - 1]), h[|h| - 1]))
  }

  ghost function At(start: State, h: seq<Action>): State
    requires History(start, h)
    decreases |h|, 1
  {
    if h == [] then start else Act(At(start, h[..|h| - 1]), h[|h| - 1])
  }

  lemma {:induction false} PrefixIsHistory(start: State, h: seq<Action>, j: nat)
    requires History(start, h) && j <= |h|
    ensures History(start, h[..j])
    decreases |h|
  {
    if j == |h| {
      assert h[..j] == h;
    } else {
      assert h[..|h| - 1][..j] == h[..j];
      PrefixIsHistory(start, h[..|h| - 1], j);
    }
  }

  /**
   Action `i` is this call's check of the lock, made while it was clear, and the call has not been restarted
   since.
   */
  ghost predicate PassedAt(start: State, h: seq<Action>, id: nat, lock: Lock, i: nat) {
    && i < |h| && h[i] == (if lock == Reads then CheckReadLock(id) else CheckWriteLock(id))
    && History(start, h[..i]) && !IsSet(At(start, h[..i]), lock)
    && forall k :: i < k < |h| && h[k].Begin? ==> h[k].id != id
  }

  /** A call past a lock's check did make that check, with the lock clear. */
  lemma {:induction false} PastMeansPassed(start: State, h: seq<Action>, id: nat, lock: Lock) returns (i: nat)
    requires History(start, h) && start.calls == map[]
    requires id in At(start, h).calls && Past(At(start, h).calls[id], lock)
    ensures PassedAt(start, h, id, lock, i)
    decreases |h|
  {
    var n := |h| - 1;
    var before, a := h[..n], h[n];
    var s := At(start, before);
    if id in s.calls && Past(s.calls[id], lock) {
      i := PastMeansPassed(start, before, id, lock);
      assert before[..i] == h[..i];
      assert h[i] == before[i];
      forall k | i < k < |h| && h[k].Begin? ensures h[k].id != id {
        if k < n { assert h[k] == before[k]; }
      }
    } else {
      i := n;
    }
  }

  lemma {:induction false} StaysSet(start: State, h: seq<Action>, lock: Lock, m: nat, j: nat)
    requires History(start, h) && m < j <= |h| && h[m] == SetLock(lock) && History(start, h[..j])
    requires forall k :: m < k < j ==> h[k] != ClearLock(lock)
    ensures IsSet(At(start, h[..j]), lock)
    decreases j
  {
    assert h[..j][..j - 1] == h[..j - 1];
    if j > m + 1 {
      PrefixIsHistory(start, h, j - 1);
      StaysSet(start, h, lock, m, j - 1);
      assert h[j - 1] != ClearLock(lock);
    }
  }

  /**
   A write that lands while a lock is set belongs to a call that had passed that lock's check
   before the lock was last set.
   */
  lemma LateWritesPassedBefore(start: State, h: seq<Action>, id: nat, lock: Lock, m: nat) returns (i: nat)
    requires History(start, h) && start.calls == map[] && Enabled(At(start, h), WriteGroup(id, false))
    requires m < |h| && h[m] == SetLock(lock) && forall k :: m < k < |h| ==> h[k] != ClearLock(lock)
    ensures i < m && PassedAt(start, h, id, lock, i)
  {
    i := PastMeansPassed(start, h, id, lock);
    if i > m {
      PrefixIsHistory(start, h, i);
      StaysSet(start, h, lock, m, i);
    }
  }

  // ---------------------------------------------------------------- draining

  /** While a lock is set no call newly passes its check; and when none is past it, nothing is written. */
  lemma SetLockHolds(s: State, a: Action, lock: Lock)
    requires Enabled(s, a) && IsSet(s, lock) && a != ClearLock(lock)
    ensures IsSet(Act(s, a), lock)
    ensures PastCalls(Act(s, a), lock) <= PastCalls(s, lock)
    ensures PastCalls(s, lock) == {} ==> Act(s, a).groups == s.groups
  {
    if a.WriteGroup? { assert a.id in PastCalls(s, lock); }
    var s' := Act(s, a);
    forall id | id in PastCalls(s', lock) ensures id in PastCalls(s, lock) {}
  }

  /** Once the calls that were past its check are gone, the groups stay as they are until the lock is cleared. */
  lemma {:induction false} DrainedIsFrozen(start: State, h: seq<Action>, later: seq<Action>, lock: Lock)
    requires History(start, h) && History(start, h + later)
    requires IsSet(At(start, h), lock) && PastCalls(At(start, h), lock) == {}
    requires ClearLock(lock) !in later
    ensures At(start, h + later).groups == At(start, h).groups
    ensures IsSet(At(start, h + later), lock) && PastCalls(At(start, h + later), lock) == {}
    decreases |later|
  {
    if later == [] {
      assert h + later == h;
    } else {
      var n := |later| - 1;
      assert (h + later)[..|h + later| - 1] == h + later[..n];
      DrainedIsFrozen(start, h, later[..n], lock);
      SetLockHolds(At(start, h + later[..n]), later[n], lock);
    }
  }

  // ---------------------------------------------------------------- one call, undisturbed

  /** The steps of a call from its beginning until it returns, with nothing in between. */
  ghost function Alone(s: State, id: nat, op: Op, readFails: bool, writeFails: bool): State
    requires id !in s.calls
  {
    var s1 := Act(Act(s, Begin(id, op)), CheckWriteLock(id));
    if id !in s1.calls then s1 else
    var s2 := Act(s1, CheckReadLock(id));
    if id !in s2.calls then s2 else
    var s3 := Act(s2, ReadGroup(id, readFails));
    if id !in s3.calls then s3 else Act(s3, WriteGroup(id, writeFails))
  }

  /** Step by step, a save or delete that nobody disturbs does what it does as one operation. */
  lemma AloneIsAtomic(s: State, id: nat, op: Op, readFails: bool, writeFails: bool)
    requires id !in s.calls
    ensures var env := WriteEnv(s.writeLock != 0, s.readLock != 0, readFails, writeFails);
            Alone(s, id, op, readFails, writeFails) ==
            s.(groups := match op
                         case SaveOp(g) => if WriteFault(env).Some? then s.groups else SavedGroups(s.groups, g)
                         case DeleteOp(guid) => DeleteGroup(s.groups, guid, env).0)
  {
    assert Alone(s, id, op, readFails, writeFails).calls == s.calls;
    if op.SaveOp? {
      var i := ByGuid(s.groups, op.group.guid);
      if i.Some? { assert Merged(s.groups[i.value], op.group).guid == op.group.guid; }
    }
  }
}
