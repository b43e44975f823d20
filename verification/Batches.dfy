/** Saving a batch of routes: one by one, up to the first failure. */
module Batches {
  import opened Common
  import opened RouteTable

  ghost predicate RealUuids(saves: seq<SaveEnv>) {
    forall i :: 0 <= i < |saves| ==> saves[i].guid != Some("") && saves[i].tagGuid != Some("")
  }

  /** Routes are saved one by one until the first failure. */
  ghost function SaveAll<K, D>(t: Table<K, D>, rows: seq<Row<K, D>>, saves: seq<SaveEnv>, cfg: Config<D>)
    : Effect<K, D>
    requires Valid(t) && |saves| == |rows| && RealUuids(saves)
    decreases |rows|
  {
    if rows == [] then Effect(t, [], None) else
    StepKeepsValid(t, SaveStep(rows[0], saves[0]), cfg);
    var e := Save(t, rows[0], saves[0], cfg);
    if e.error.Some? then e else
    var rest := SaveAll(e.table, rows[1..], saves[1..], cfg);
    Effect(rest.table, e.events + rest.events, rest.error)
  }

  lemma {:induction false} SaveAllValid<K, D>(t: Table<K, D>, rows: seq<Row<K, D>>, saves: seq<SaveEnv>, cfg: Config<D>)
    requires Valid(t) && |saves| == |rows| && RealUuids(saves)
    ensures Valid(SaveAll(t, rows, saves, cfg).table)
    decreases |rows|
  {
    if rows != [] {
      StepKeepsValid(t, SaveStep(rows[0], saves[0]), cfg);
      var e := Save(t, rows[0], saves[0], cfg);
      if e.error.None? { SaveAllValid(e.table, rows[1..], saves[1..], cfg); }
    }
  }

  /** How many rows of the batch are saved: those before the first failure. */
  ghost function SavedCount<K, D>(t: Table<K, D>, rows: seq<Row<K, D>>, saves: seq<SaveEnv>, cfg: Config<D>): (n: nat)
    requires Valid(t) && |saves| == |rows| && RealUuids(saves)
    ensures n <= |rows|
    ensures SaveAll(t, rows, saves, cfg).error.None? <==> n == |rows|
    decreases |rows|
  {
    if rows == [] then 0 else
    StepKeepsValid(t, SaveStep(rows[0], saves[0]), cfg);
    var e := Save(t, rows[0], saves[0], cfg);
    if e.error.Some? then 0 else 1 + SavedCount(e.table, rows[1..], saves[1..], cfg)
  }

  lemma SaveAllFrom<K, D>(t: Table<K, D>, rows: seq<Row<K, D>>, saves: seq<SaveEnv>, cfg: Config<D>, i: nat)
    requires Valid(t) && |saves| == |rows| && RealUuids(saves) && i < |rows|
    ensures var e := Save(t, rows[i], saves[i], cfg);
            var all := SaveAll(t, rows[i..], saves[i..], cfg);
            Valid(e.table) &&
            if e.error.Some? then all == e
            else
              var rest := SaveAll(e.table, rows[i + 1..], saves[i + 1..], cfg);
              all == Effect(rest.table, e.events + rest.events, rest.error)
  {
    assert rows[i..][0] == rows[i] && saves[i..][0] == saves[i];
    assert rows[i..][1..] == rows[i + 1..] && saves[i..][1..] == saves[i + 1..];
    StepKeepsValid(t, SaveStep(rows[i], saves[i]), cfg);
  }

  /** Saving from position `i` on, with table and log as given, ends as `all` said at the start. */
  ghost predicate Remaining<K, D>(all: Effect<K, D>, logAtStart: seq<Event<K, D>>,
                            t: Table<K, D>, log: seq<Event<K, D>>,
                            rows: seq<Row<K, D>>, saves: seq<SaveEnv>, cfg: Config<D>, i: nat)
    requires |saves| == |rows| && RealUuids(saves) && i <= |rows|
  {
    Valid(t) &&
    var rest := SaveAll(t, rows[i..], saves[i..], cfg);
    all.table == rest.table && all.error == rest.error && logAtStart + all.events == log + rest.events
  }

  lemma RemainingAfter<K, D>(all: Effect<K, D>, logAtStart: seq<Event<K, D>>,
                       t: Table<K, D>, log: seq<Event<K, D>>,
                       rows: seq<Row<K, D>>, saves: seq<SaveEnv>, cfg: Config<D>, i: nat, e: Effect<K, D>)
    requires |saves| == |rows| && RealUuids(saves) && i < |rows|
    requires Remaining(all, logAtStart, t, log, rows, saves, cfg, i) && e == Save(t, rows[i], saves[i], cfg)
    ensures e.error.Some? ==> all.table == e.table && all.error == e.error && logAtStart + all.events == log + e.events
    ensures e.error.None? ==> Remaining(all, logAtStart, e.table, log + e.events, rows, saves, cfg, i + 1)
  {
    SaveAllFrom(t, rows, saves, cfg, i);
    if e.error.None? {
      var rest := SaveAll(e.table, rows[i + 1..], saves[i + 1..], cfg);
      assert log + (e.events + rest.events) == log + e.events + rest.events;
    }
  }

  /** A batch is cut short by the failure of its next save. */
  lemma {:induction false} BatchFails<K, D>(t: Table<K, D>, rows: seq<Row<K, D>>, saves: seq<SaveEnv>, cfg: Config<D>)
    requires Valid(t) && |saves| == |rows| && RealUuids(saves) && SaveAll(t, rows, saves, cfg).error.Some?
    ensures var e, n := SaveAll(t, rows, saves, cfg), SavedCount(t, rows, saves, cfg);
            n < |rows| && Valid(e.table) && e.error == Save(e.table, rows[n], saves[n], cfg).error
    decreases |rows|
  {
    StepKeepsValid(t, SaveStep(rows[0], saves[0]), cfg);
    var e := Save(t, rows[0], saves[0], cfg);
    if e.error.None? { BatchFails(e.table, rows[1..], saves[1..], cfg); }
  }

  ghost function SaveSteps<K, D>(rows: seq<Row<K, D>>, saves: seq<SaveEnv>): (steps: seq<Step<K, D>>)
    requires |saves| == |rows|
    ensures |steps| == |rows|
    ensures forall i :: 0 <= i < |steps| ==> steps[i] == SaveStep(rows[i], saves[i])
  {
    seq(|rows|, i requires 0 <= i < |rows| => SaveStep(rows[i], saves[i]))
  }

  /** A batch, complete or cut short by a failure, is a run of single saves. */
  lemma {:induction false} BatchIsRun<K, D>(t: Table<K, D>, rows: seq<Row<K, D>>, saves: seq<SaveEnv>, cfg: Config<D>)
    returns (n: nat)
    requires Valid(t) && |saves| == |rows| && RealUuids(saves)
    ensures n <= |rows| && PossibleRun(t, SaveSteps(rows, saves)[..n], cfg)
    ensures var e := SaveAll(t, rows, saves, cfg); Run(t, SaveSteps(rows, saves)[..n], cfg) == (e.table, e.events)
    ensures n == SavedCount(t, rows, saves, cfg)
    decreases |rows|
  {
    if rows == [] {
      n := 0;
    } else {
      var step := SaveStep(rows[0], saves[0]);
      StepKeepsValid(t, step, cfg);
      var e := Save(t, rows[0], saves[0], cfg);
      if e.error.Some? {
        n := 0;
      } else {
        var m := BatchIsRun(e.table, rows[1..], saves[1..], cfg);
        n := m + 1;
        assert SaveSteps(rows, saves)[..n] == [step] + SaveSteps(rows[1..], saves[1..])[..m];
        assert SaveSteps(rows, saves)[..n][1..] == SaveSteps(rows[1..], saves[1..])[..m];
      }
    }
  }
}
