/**
 The migration runner: a list of versions, one persisted record, and failures at every call
 (migration/migration.go).
 */
module Migrations {
  import opened Common

  datatype MigrationData = MigrationData(current: int, target: int)

  /** A write can also take effect although an error is reported. */
  datatype WriteOutcome = Written | Lost | WrittenButReported

  predicate Reported(w: WriteOutcome) { w != Written }
  predicate Effective(w: WriteOutcome) { w != Lost }

  /** What one migration's body and the save of its version come to. */
  datatype StepFault = StepFault(runFails: bool, save: WriteOutcome)

  /** What one run of the program finds in its surroundings. */
  datatype Faults =
    Faults(autoMigrateFails: bool, firstFails: bool, writeFails: bool, commit: WriteOutcome, steps: seq<StepFault>)

  /** One execution of a migration: whether it completed, and whether the save of its version then succeeded. */
  datatype Deed = Deed(version: int, ok: bool, recorded: bool)

  datatype Store = Store(record: Option<MigrationData>, deeds: seq<Deed>)

  datatype Outcome = Done | Error | Panic

  /** A list entry may be nil. */
  type Versions = seq<Option<int>>

  /** Runs the migrations from position `i` on; `data` is the program's copy of the record. */
  ghost function Iterate(s: Store, list: Versions, data: MigrationData, i: nat, steps: seq<StepFault>): (Store, Outcome)
    requires i <= |list| == |steps|
    decreases |list| - i
  {
    if i == |list| then (s, Done)
    else if list[i].None? || list[i].value <= data.current then Iterate(s, list, data, i + 1, steps)
    else
      var v := list[i].value;
      if steps[i].runFails then (s.(deeds := s.deeds + [Deed(v, false, false)]), Error)
      else
        var data' := data.(current := v);
        var s' := Store(if Effective(steps[i].save) then Some(data') else s.record,
                        s.deeds + [Deed(v, true, !Reported(steps[i].save))]);
        if Reported(steps[i].save) then (s', Error) else Iterate(s', list, data', i + 1, steps)
  }

  /** The record a run starts its work from: seeded, or with the target moved. */
  function Opened(record: Option<MigrationData>, last: int): MigrationData {
    if record.None? then MigrationData(-1, last) else record.value.(target := last)
  }

  ghost function Migrate(s: Store, list: Versions, faults: Faults): (Store, Outcome)
    requires |faults.steps| == |list|
  {
    if list == [] then (s, Done)
    else if list[|list| - 1].None? then (s, Panic)
    else
      var last := list[|list| - 1].value;
      if faults.autoMigrateFails || faults.firstFails then (s, Error)
      else if s.record.Some? && s.record.value.current >= last then
        (s, if Reported(faults.commit) then Error else Done)
      else if faults.writeFails then (s, Error)
      else
        var data := Opened(s.record, last);
        var s' := if Effective(faults.commit) then s.(record := Some(data)) else s;
        if Reported(faults.commit) then (s', Error) else Iterate(s', list, data, 0, faults.steps)
  }

  class Runner {
    var record: Option<MigrationData>
    ghost var deeds: seq<Deed>

    constructor ()
      ensures record == None && deeds == []
    {
      record, deeds := None, [];
    }

    /** The program itself. */
    method RunMigrations(list: Versions, faults: Faults) returns (r: Outcome)
      requires |faults.steps| == |list|
      modifies this
      ensures (Store(record, deeds), r) == Migrate(old(Store(record, deeds)), list, faults)
    {
      if |list| == 0 { return Done; }
      if list[|list| - 1].None? { return Panic; }
      var last := list[|list| - 1].value;
      if faults.autoMigrateFails { return Error; }
      if faults.firstFails { return Error; }

      var existing: MigrationData;
      if record.None? {
        existing := MigrationData(-1, last);
      } else {
        existing := record.value;
        if existing.current >= last {
          return if Reported(faults.commit) then Error else Done;
        }
        existing := existing.(target := last);
      }
      if faults.writeFails { return Error; }
      if Effective(faults.commit) { record := Some(existing); }
      if Reported(faults.commit) { return Error; }

      var current := existing.current;
      ghost var goal := Iterate(Store(record, deeds), list, existing, 0, faults.steps);
      for i := 0 to |list|
        invariant current == existing.current
        invariant goal == Iterate(Store(record, deeds), list, existing, i, faults.steps)
      {
        if list[i].Some? && list[i].value > current {
          var v := list[i].value;
          if faults.steps[i].runFails {
            deeds := deeds + [Deed(v, false, false)];
            return Error;
          }
          current := v;
          existing := existing.(current := current);
          if Effective(faults.steps[i].save) { record := Some(existing); }
          deeds := deeds + [Deed(v, true, !Reported(faults.steps[i].save))];
          if Reported(faults.steps[i].save) { return Error; }
        }
      }
      return Done;
    }
  }

  // ---------------------------------------------------------------- what runs preserve

  ghost predicate Ascending(list: Versions) {
    forall i, j :: 0 <= i < j < |list| && list[i].Some? && list[j].Some? ==> list[i].value < list[j].value
  }

  /** The record never runs ahead of its target (which is below -1 only for lists of such versions). */
  ghost predicate RecordOk(s: Store) {
    s.record.Some? ==>
      var data := s.record.value;
      -1 <= data.current && (data.current <= data.target || data.current == -1)
  }

  ghost predicate Completed(deeds: seq<Deed>, n: nat, v: int) {
    exists k :: 0 <= k < n <= |deeds| && deeds[k].ok && deeds[k].version == v
  }

  /** Every listed version between -1 and the recorded one has run to completion. */
  ghost predicate NoGap(s: Store, list: Versions) {
    forall m :: 0 <= m < |list| && list[m].Some? && s.record.Some? && -1 < list[m].value <= s.record.value.current ==>
      Completed(s.deeds, |s.deeds|, list[m].value)
  }

  /** A migration runs only after every earlier listed one has completed. */
  ghost predicate InOrder(deeds: seq<Deed>, list: Versions) {
    forall k, m :: 0 <= k < |deeds| && 0 <= m < |list| && list[m].Some? && -1 < list[m].value < deeds[k].version ==>
      Completed(deeds, k, list[m].value)
  }

  /** A migration runs again only if it failed, or recording it did. */
  ghost predicate RepeatsExcused(deeds: seq<Deed>) {
    forall i, j :: 0 <= i < j < |deeds| && deeds[i].version == deeds[j].version ==> !deeds[i].ok || !deeds[i].recorded
  }

  /** What was recorded stays recorded. */
  ghost predicate Bookkept(s: Store) {
    forall i :: 0 <= i < |s.deeds| && s.deeds[i].recorded ==>
      s.record.Some? && s.deeds[i].version <= s.record.value.current
  }

  ghost predicate Inv(s: Store, list: Versions) {
    RecordOk(s) && NoGap(s, list) && InOrder(s.deeds, list) && RepeatsExcused(s.deeds) && Bookkept(s)
  }

  /** The store after trying version `v`. */
  ghost function Attempt(s: Store, data: MigrationData, v: int, fault: StepFault): Store {
    if fault.runFails then s.(deeds := s.deeds + [Deed(v, false, false)])
    else Store(if Effective(fault.save) then Some(data.(current := v)) else s.record,
               s.deeds + [Deed(v, true, !Reported(fault.save))])
  }

  /** Version `v` is the next to run: listed at `i`, above the record, with everything below it recorded. */
  ghost predicate Due(s: Store, list: Versions, data: MigrationData, i: nat) {
    && s.record == Some(data) && i < |list| && list[i].Some? && data.current < list[i].value <= data.target
    && forall m :: 0 <= m < i && list[m].Some? ==> list[m].value <= data.current
  }

  lemma BelowIsCompleted(s: Store, list: Versions, data: MigrationData, i: nat, m: nat)
    requires Ascending(list) && NoGap(s, list) && Due(s, list, data, i)
    requires m < |list| && list[m].Some? && -1 < list[m].value < list[i].value
    ensures Completed(s.deeds, |s.deeds|, list[m].value)
  {
    assert m < i;
  }

  lemma AttemptNoGap(s: Store, list: Versions, data: MigrationData, i: nat, fault: StepFault)
    requires Ascending(list) && NoGap(s, list) && Due(s, list, data, i)
    ensures NoGap(Attempt(s, data, list[i].value, fault), list)
  {
    var v := list[i].value;
    var s' := Attempt(s, data, v, fault);
    var n := |s.deeds|;
    forall m | 0 <= m < |list| && list[m].Some? && s'.record.Some? && -1 < list[m].value <= s'.record.value.current
      ensures Completed(s'.deeds, |s'.deeds|, list[m].value)
    {
      if list[m].value == v && !fault.runFails && Effective(fault.save) {
        assert s'.deeds[n].ok && s'.deeds[n].version == v;
      } else {
        if list[m].value < v { BelowIsCompleted(s, list, data, i, m); }
        var k :| 0 <= k < n && s.deeds[k].ok && s.deeds[k].version == list[m].value;
        assert s'.deeds[k] == s.deeds[k];
      }
    }
  }

  lemma AttemptInOrder(s: Store, list: Versions, data: MigrationData, i: nat, fault: StepFault)
    requires Ascending(list) && NoGap(s, list) && InOrder(s.deeds, list) && Due(s, list, data, i)
    ensures InOrder(Attempt(s, data, list[i].value, fault).deeds, list)
  {
    var deeds := Attempt(s, data, list[i].value, fault).deeds;
    var n := |s.deeds|;
    forall k, m | 0 <= k < |deeds| && 0 <= m < |list| && list[m].Some? && -1 < list[m].value < deeds[k].version
      ensures Completed(deeds, k, list[m].value)
    {
      if k < n {
        assert deeds[k] == s.deeds[k];
        var l :| 0 <= l < k && s.deeds[l].ok && s.deeds[l].version == list[m].value;
        assert deeds[l] == s.deeds[l];
      } else {
        assert k == n;
        BelowIsCompleted(s, list, data, i, m);
        var l :| 0 <= l < n && s.deeds[l].ok && s.deeds[l].version == list[m].value;
        assert deeds[l] == s.deeds[l];
      }
    }
  }

  lemma AttemptRepeats(s: Store, list: Versions, data: MigrationData, i: nat, fault: StepFault)
    requires RepeatsExcused(s.deeds) && Bookkept(s) && Due(s, list, data, i)
    ensures RepeatsExcused(Attempt(s, data, list[i].value, fault).deeds)
    ensures Bookkept(Attempt(s, data, list[i].value, fault))
  {
  }

  lemma AttemptKeepsInv(s: Store, list: Versions, data: MigrationData, i: nat, fault: StepFault)
    requires Ascending(list) && Inv(s, list) && Due(s, list, data, i)
    ensures Inv(Attempt(s, data, list[i].value, fault), list)
  {
    AttemptNoGap(s, list, data, i, fault);
    AttemptInOrder(s, list, data, i, fault);
    AttemptRepeats(s, list, data, i, fault);
  }

  /** How the loop leaves the store: the record is there and not lowered, and on success it is at the target. */
  ghost predicate Landed(s: Store, s': Store, r: Outcome, data: MigrationData, left: nat) {
    && r != Panic && s.deeds <= s'.deeds
    && s'.record.Some? && data.current <= s'.record.value.current
    && (r == Done && left > 0 && data.current <= data.target ==> s'.record.value.current == data.target)
    && (r == Done && left == 0 ==> s' == s)
  }

  /** The loop, one position at a time: a version not above the current one is skipped, any other is attempted. */
  lemma IterateStep(s: Store, list: Versions, n: nat, data: MigrationData, i: nat, steps: seq<StepFault>)
    requires i < n <= |list| && |steps| == n
    ensures Iterate(s, list[..n], data, i, steps) ==
            if list[i].None? || list[i].value <= data.current then Iterate(s, list[..n], data, i + 1, steps)
            else
              var s' := Attempt(s, data, list[i].value, steps[i]);
              if steps[i].runFails || steps[i].save != Written then (s', Error)
              else Iterate(s', list[..n], data.(current := list[i].value), i + 1, steps)
  {
    assert list[..n][i] == list[i];
  }

  /** The loop is at position `i` of the first `n` entries: the record is current, and nothing earlier is above it. */
  ghost predicate Underway(s: Store, list: Versions, n: nat, data: MigrationData, i: nat) {
    && i <= n <= |list| && s.record == Some(data)
    && (forall m :: 0 <= m < i && list[m].Some? ==> list[m].value <= data.current)
    && n > 0 && list[n - 1].Some? && data.target == list[n - 1].value
  }

  lemma AttemptUnderway(s: Store, list: Versions, n: nat, data: MigrationData, i: nat, fault: StepFault)
    requires Ascending(list) && Underway(s, list, n, data, i) && i < n && list[i].Some? && data.current < list[i].value
    ensures Due(s, list, data, i)
    ensures !fault.runFails && fault.save == Written ==>
              Underway(Attempt(s, data, list[i].value, fault), list, n, data.(current := list[i].value), i + 1)
  {
  }

  lemma {:induction false} IterateLands(s: Store, list: Versions, n: nat, data: MigrationData, i: nat,
                                        steps: seq<StepFault>)
    requires Ascending(list) && |steps| == n && Underway(s, list, n, data, i)
    ensures var (s', r) := Iterate(s, list[..n], data, i, steps); Landed(s, s', r, data, n - i)
    decreases n - i
  {
    if i < n {
      IterateStep(s, list, n, data, i, steps);
      if list[i].None? || list[i].value <= data.current {
        IterateLands(s, list, n, data, i + 1, steps);
      } else {
        AttemptUnderway(s, list, n, data, i, steps[i]);
        if !steps[i].runFails && steps[i].save == Written {
          var v := list[i].value;
          IterateLands(Attempt(s, data, v, steps[i]), list, n, data.(current := v), i + 1, steps);
        }
      }
    }
  }

  lemma {:induction false} IterateKeepsInv(s: Store, list: Versions, n: nat, data: MigrationData, i: nat,
                                           steps: seq<StepFault>)
    requires Ascending(list) && Inv(s, list) && |steps| == n && Underway(s, list, n, data, i)
    ensures Inv(Iterate(s, list[..n], data, i, steps).0, list)
    decreases n - i
  {
    if i < n {
      IterateStep(s, list, n, data, i, steps);
      if list[i].None? || list[i].value <= data.current {
        IterateKeepsInv(s, list, n, data, i + 1, steps);
      } else {
        AttemptUnderway(s, list, n, data, i, steps[i]);
        AttemptKeepsInv(s, list, data, i, steps[i]);
        if !steps[i].runFails && steps[i].save == Written {
          var v := list[i].value;
          IterateKeepsInv(Attempt(s, data, v, steps[i]), list, n, data.(current := v), i + 1, steps);
        }
      }
    }
  }

  /** What one run may do to the store: keep the invariant, add deeds, and never lower the recorded version. */
  ghost predicate Advances(s: Store, s': Store, list: Versions) {
    && Inv(s', list) && s.deeds <= s'.deeds
    && (s.record.Some? ==> s'.record.Some? && s.record.value.current <= s'.record.value.current)
  }

  /** The run has work to do: its last version is above the recorded one. */
  ghost predicate Behind(s: Store, last: int) {
    s.record.None? || s.record.value.current < last
  }

  lemma WorkAdvances(s: Store, list: Versions, n: nat, faults: Faults)
    requires Ascending(list) && Inv(s, list) && 0 < n <= |list| && |faults.steps| == n
    requires list[n - 1].Some? && Behind(s, list[n - 1].value)
    ensures var data := Opened(s.record, list[n - 1].value);
            var s' := s.(record := Some(data));
            var (s'', r) := Iterate(s', list[..n], data, 0, faults.steps);
            && Advances(s, s', list) && Advances(s, s'', list) && r != Panic
            && (r == Done && -1 <= list[n - 1].value ==>
               s''.record.Some? && s''.record.value.current == list[n - 1].value)
  {
    var data := Opened(s.record, list[n - 1].value);
    OpenedKeepsInv(s, list, list[n - 1].value);
    IterateKeepsInv(s.(record := Some(data)), list, n, data, 0, faults.steps);
    IterateLands(s.(record := Some(data)), list, n, data, 0, faults.steps);
  }

  /**
   One run over any prefix of an ascending list, failing wherever it may: it keeps the invariant,
   never lowers the recorded version, and if it succeeds from below its last version it ends there.
   */
  lemma MigrateKeepsInv(s: Store, list: Versions, n: nat, faults: Faults)
    requires Ascending(list) && Inv(s, list) && n <= |list| && |faults.steps| == n
    ensures Advances(s, Migrate(s, list[..n], faults).0, list)
    ensures var (s', r) := Migrate(s, list[..n], faults);
            r == Done && n > 0 && list[n - 1].Some? && -1 <= list[n - 1].value && Behind(s, list[n - 1].value) ==>
              s'.record.Some? && s'.record.value.current == list[n - 1].value
  {
    if n > 0 && list[n - 1].Some? && Behind(s, list[n - 1].value) {
      assert list[..n][n - 1] == list[n - 1];
      WorkAdvances(s, list, n, faults);
    } else {
      assert Migrate(s, list[..n], faults).0 == s;
    }
  }

  lemma OpenedKeepsInv(s: Store, list: Versions, last: int)
    requires Inv(s, list) && Behind(s, last)
    ensures Inv(s.(record := Some(Opened(s.record, last))), list)
  {
    var s' := s.(record := Some(Opened(s.record, last)));
    assert NoGap(s', list);
  }

  // ---------------------------------------------------------------- when a run succeeds, and what it then did

  /** Where it is listed and above `current`, a version runs and is recorded without an error. */
  ghost predicate Clean(list: Versions, current: int, i: nat, steps: seq<StepFault>)
    requires i <= |list| && |list| <= |steps|
  {
    forall m :: i <= m < |list| && list[m].Some? && current < list[m].value ==>
      !steps[m].runFails && steps[m].save == Written
  }

  /** The versions from position `i` on that are above `current`, each completed and recorded, in the order listed. */
  ghost function NewDeeds(list: Versions, current: int, i: nat): (deeds: seq<Deed>)
    requires i <= |list|
    decreases |list| - i
  {
    if i == |list| then []
    else (if list[i].None? || list[i].value <= current then [] else [Deed(list[i].value, true, true)])
         + NewDeeds(list, current, i + 1)
  }

  /** They are exactly the versions listed above `current`, and in a list that ascends they ascend too. */
  lemma {:induction false} NewDeedsAre(list: Versions, current: int, i: nat)
    requires i <= |list|
    ensures forall d :: d in NewDeeds(list, current, i) <==>
              d.ok && d.recorded && current < d.version && Some(d.version) in list[i..]
    ensures Ascending(list) ==> Increasing(NewDeeds(list, current, i))
    decreases |list| - i
  {
    if i < |list| {
      NewDeedsAre(list, current, i + 1);
      var rest := NewDeeds(list, current, i + 1);
      assert list[i..] == [list[i]] + list[i + 1..];
      if Ascending(list) && list[i].Some? && current < list[i].value {
        forall d | d in rest ensures list[i].value < d.version {
          var m :| 0 <= m < |list[i + 1..]| && list[i + 1..][m] == Some(d.version);
          assert list[i + 1 + m] == Some(d.version);
        }
        ConsIncreasing(Deed(list[i].value, true, true), rest);
      }
    }
  }

  ghost predicate Increasing(deeds: seq<Deed>) {
    forall k, l :: 0 <= k < l < |deeds| ==> deeds[k].version < deeds[l].version
  }

  lemma ConsIncreasing(first: Deed, rest: seq<Deed>)
    requires Increasing(rest) && forall d :: d in rest ==> first.version < d.version
    ensures Increasing([first] + rest)
  {
  }

  /** Where the list ascends, having run the version at `i` excuses none that comes later. */
  lemma {:induction false} NewDeedsFrom(list: Versions, current: int, i: nat, j: nat)
    requires Ascending(list) && i < j <= |list| && list[i].Some? && current <= list[i].value
    ensures NewDeeds(list, list[i].value, j) == NewDeeds(list, current, j)
    decreases |list| - j
  {
    if j < |list| {
      assert list[j].Some? ==> list[i].value < list[j].value;
      NewDeedsFrom(list, current, i, j + 1);
    }
  }

  /** Where the list ascends, the steps to come are the same after the version at `i` as before it. */
  lemma CleanFrom(list: Versions, current: int, i: nat, steps: seq<StepFault>)
    requires Ascending(list) && i < |list| == |steps|
    ensures list[i].None? || list[i].value <= current ==>
              (Clean(list, current, i, steps) <==> Clean(list, current, i + 1, steps))
    ensures list[i].Some? && current < list[i].value ==>
              (Clean(list, current, i, steps) <==>
               !steps[i].runFails && steps[i].save == Written && Clean(list, list[i].value, i + 1, steps))
  {
    if list[i].Some? && current < list[i].value {
      forall m | i < m < |list| && list[m].Some? ensures list[i].value < list[m].value {}
    }
  }

  /** The loop ends without an error exactly if none of the steps it comes to has one. */
  lemma {:induction false} IterateIff(s: Store, list: Versions, data: MigrationData, i: nat, steps: seq<StepFault>)
    requires Ascending(list) && i <= |list| == |steps|
    ensures Iterate(s, list, data, i, steps).1 == if Clean(list, data.current, i, steps) then Done else Error
    decreases |list| - i
  {
    if i < |list| {
      CleanFrom(list, data.current, i, steps);
      if list[i].None? || list[i].value <= data.current {
        IterateIff(s, list, data, i + 1, steps);
      } else if !steps[i].runFails && steps[i].save == Written {
        var v := list[i].value;
        IterateIff(Attempt(s, data, v, steps[i]), list, data.(current := v), i + 1, steps);
      }
    }
  }

  /** It has then run them all. */
  lemma {:induction false} IterateRuns(s: Store, list: Versions, data: MigrationData, i: nat, steps: seq<StepFault>)
    requires Ascending(list) && i <= |list| == |steps| && Iterate(s, list, data, i, steps).1 == Done
    ensures Iterate(s, list, data, i, steps).0.deeds == s.deeds + NewDeeds(list, data.current, i)
    decreases |list| - i
  {
    if i < |list| {
      if list[i].None? || list[i].value <= data.current {
        IterateRuns(s, list, data, i + 1, steps);
      } else {
        var v := list[i].value;
        IterateRuns(Attempt(s, data, v, steps[i]), list, data.(current := v), i + 1, steps);
        NewDeedsFrom(list, data.current, i, i + 1);
      }
    }
  }

  /**
   Otherwise it has done what it does with the list up to the first step that fails, and then that step: a migration
   that did not complete, or one that did and was not recorded, though the save may have taken effect.
   */
  lemma {:induction false} IterateStops(s: Store, list: Versions, data: MigrationData, i: nat, steps: seq<StepFault>,
                                        m: nat)
    requires Ascending(list) && |list| == |steps| && i <= m < |list| && s.record == Some(data)
    requires list[m].Some? && data.current < list[m].value && (steps[m].runFails || steps[m].save != Written)
    requires Clean(list[..m], data.current, i, steps)
    ensures var s' := Iterate(s, list[..m], data, i, steps[..m]).0;
            && s'.record.Some?
            && Iterate(s, list, data, i, steps) ==
               (Store(if !steps[m].runFails && steps[m].save == WrittenButReported
                      then Some(s'.record.value.(current := list[m].value)) else s'.record,
                      s'.deeds + [Deed(list[m].value, !steps[m].runFails, false)]),
                Error)
    decreases m - i
  {
    if i < m {
      assert list[..m][i] == list[i] && steps[..m][i] == steps[i];
      if list[i].None? || list[i].value <= data.current {
        IterateStops(s, list, data, i + 1, steps, m);
      } else {
        var v := list[i].value;
        IterateStops(Attempt(s, data, v, steps[i]), list, data.(current := v), i + 1, steps, m);
      }
    }
  }

  /** The version a run starts from. */
  function From(s: Store): int {
    if s.record.None? then -1 else s.record.value.current
  }

  /** The errors a run comes to: those of the record always, those of its writes and steps only if it has work to do. */
  ghost predicate Faultless(s: Store, list: Versions, last: int, faults: Faults)
    requires |faults.steps| == |list|
  {
    && !faults.autoMigrateFails && !faults.firstFails && faults.commit == Written
    && (Behind(s, last) ==> !faults.writeFails && Clean(list, From(s), 0, faults.steps))
  }

  /**
   A run over an ascending list that ends in a version is done exactly if it comes to no error. It has then run the
   listed versions above the recorded one, in order, each completed and recorded, and the record is at the last
   version, or where it was if that is not below.
   */
  lemma {:induction false} DoneIff(s: Store, list: Versions, faults: Faults)
    requires Ascending(list) && |faults.steps| == |list| && list != [] && list[|list| - 1].Some?
    ensures var (s', r) := Migrate(s, list, faults);
            var last := list[|list| - 1].value;
            && r == (if Faultless(s, list, last, faults) then Done else Error)
            && (r == Done && !Behind(s, last) ==> s' == s)
            && (r == Done && Behind(s, last) ==> s'.deeds == s.deeds + NewDeeds(list, From(s), 0))
            && (r == Done && Behind(s, last) && -1 <= last ==> s'.record == Some(MigrationData(last, last)))
  {
    var last := list[|list| - 1].value;
    if Behind(s, last) {
      var data := Opened(s.record, last);
      var s' := s.(record := Some(data));
      IterateIff(s', list, data, 0, faults.steps);
      if Clean(list, From(s), 0, faults.steps) { IterateRuns(s', list, data, 0, faults.steps); }
      assert list[..|list|] == list;
      IterateLands(s', list, |list|, data, 0, faults.steps);
      IterateTarget(s', list, data, 0, faults.steps);
    }
  }

  /** The target is never touched by the loop. */
  lemma {:induction false} IterateTarget(s: Store, list: Versions, data: MigrationData, i: nat, steps: seq<StepFault>)
    requires i <= |list| == |steps| && s.record == Some(data)
    ensures var s' := Iterate(s, list, data, i, steps).0; s'.record.Some? && s'.record.value.target == data.target
    decreases |list| - i
  {
    if i < |list| {
      if list[i].None? || list[i].value <= data.current {
        IterateTarget(s, list, data, i + 1, steps);
      } else if !steps[i].runFails && steps[i].save == Written {
        IterateTarget(Attempt(s, data, list[i].value, steps[i]), list, data.(current := list[i].value), i + 1, steps);
      }
    }
  }

  /** An error before the list leaves the store as it was, unless the record was written although one was reported. */
  lemma EarlyErrors(s: Store, list: Versions, faults: Faults)
    requires |faults.steps| == |list| && list != [] && list[|list| - 1].Some?
    requires faults.autoMigrateFails || faults.firstFails || faults.commit != Written ||
             (Behind(s, list[|list| - 1].value) && faults.writeFails)
    ensures var last := list[|list| - 1].value;
            var written := && !faults.autoMigrateFails && !faults.firstFails && Behind(s, last) && !faults.writeFails
                           && faults.commit == WrittenButReported;
            Migrate(s, list, faults) ==
            (if written then Store(Some(MigrationData(From(s), last)), s.deeds) else s, Error)
  {
  }

  /** A run that gets to its list and fails there stops at the first version whose step does. */
  lemma {:induction false} StopsAt(s: Store, list: Versions, faults: Faults, m: nat)
    requires Ascending(list) && |faults.steps| == |list| && m < |list| && list[|list| - 1].Some?
    requires Behind(s, list[|list| - 1].value) && !faults.autoMigrateFails && !faults.firstFails && !faults.writeFails
    requires faults.commit == Written && Clean(list[..m], From(s), 0, faults.steps)
    requires list[m].Some? && From(s) < list[m].value
    requires faults.steps[m].runFails || faults.steps[m].save != Written
    ensures var (s', r) := Migrate(s, list, faults);
            && r == Error
            && s'.deeds == s.deeds + NewDeeds(list[..m], From(s), 0)
                           + [Deed(list[m].value, !faults.steps[m].runFails, false)]
            && (s'.record.Some? && s'.record.value.current == list[m].value <==>
                !faults.steps[m].runFails && faults.steps[m].save == WrittenButReported)
  {
    var data := Opened(s.record, list[|list| - 1].value);
    var s0 := s.(record := Some(data));
    IterateStops(s0, list, data, 0, faults.steps, m);
    assert Ascending(list[..m]);
    IterateIff(s0, list[..m], data, 0, faults.steps[..m]);
    IterateRuns(s0, list[..m], data, 0, faults.steps[..m]);
    IterateBelow(s0, list[..m], data, 0, faults.steps[..m], list[m].value);
  }

  /** The loop records none but listed versions. */
  lemma {:induction false} IterateBelow(s: Store, list: Versions, data: MigrationData, i: nat, steps: seq<StepFault>,
                                        v: int)
    requires i <= |list| == |steps| && s.record == Some(data) && data.current < v
    requires forall m :: 0 <= m < |list| && list[m].Some? ==> list[m].value < v
    ensures var s' := Iterate(s, list, data, i, steps).0; s'.record.Some? && s'.record.value.current < v
    decreases |list| - i
  {
    if i < |list| {
      if list[i].None? || list[i].value <= data.current {
        IterateBelow(s, list, data, i + 1, steps, v);
      } else if !steps[i].runFails && steps[i].save == Written {
        IterateBelow(Attempt(s, data, list[i].value, steps[i]), list, data.(current := list[i].value), i + 1, steps, v);
      }
    }
  }

  /** Without a list there is nothing to do, and a list that ends in nil stops the program before it does anything. */
  lemma WithoutLast(s: Store, list: Versions, faults: Faults)
    requires |faults.steps| == |list| && (list == [] || list[|list| - 1].None?)
    ensures Migrate(s, list, faults) == (s, if list == [] then Done else Panic)
  {
  }

  // ---------------------------------------------------------------- any number of runs

  /** One start of the program: how much of the list its version has, and its faults. */
  datatype Start = Start(n: nat, faults: Faults)

  ghost predicate PossibleStarts(list: Versions, starts: seq<Start>) {
    forall i :: 0 <= i < |starts| ==> starts[i].n <= |list| && |starts[i].faults.steps| == starts[i].n
  }

  ghost function AfterStarts(s: Store, list: Versions, starts: seq<Start>): Store
    requires PossibleStarts(list, starts)
    decreases |starts|
  {
    if starts == [] then s
    else AfterStarts(Migrate(s, list[..starts[0].n], starts[0].faults).0, list, starts[1..])
  }

  /** Upgrades, downgrades and crashes in any order: the invariant holds, and the recorded version never decreases. */
  lemma {:induction false} StartsKeepInv(s: Store, list: Versions, starts: seq<Start>)
    requires Ascending(list) && Inv(s, list) && PossibleStarts(list, starts)
    ensures Inv(AfterStarts(s, list, starts), list) && s.deeds <= AfterStarts(s, list, starts).deeds
    ensures s.record.Some? ==> AfterStarts(s, list, starts).record.Some?
                               && s.record.value.current <= AfterStarts(s, list, starts).record.value.current
    decreases |starts|
  {
    if starts != [] {
      MigrateKeepsInv(s, list, starts[0].n, starts[0].faults);
      StartsKeepInv(Migrate(s, list[..starts[0].n], starts[0].faults).0, list, starts[1..]);
    }
  }

  /** From a database without a record, any number of starts leaves these guarantees. */
  lemma FreshStarts(list: Versions, starts: seq<Start>)
    requires Ascending(list) && PossibleStarts(list, starts)
    ensures Inv(AfterStarts(Store(None, []), list, starts), list)
  {
    StartsKeepInv(Store(None, []), list, starts);
  }

  /** The program's own list. */
  function InitializeMigrations(): (list: Versions)
    ensures Ascending(list) && |list| == 11 && list[|list| - 1] == Some(11)
    ensures forall v :: Some(v) in list <==> v == 0 || 2 <= v <= 11
  {
    [Some(0), Some(2), Some(3), Some(4), Some(5), Some(6), Some(7), Some(8), Some(9), Some(10), Some(11)]
  }
}
