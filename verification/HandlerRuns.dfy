/** The handlers' requests as runs of the table: what the run theorems promise holds of whole runs of requests. */
module HandlerRuns {
  import opened Common
  import opened RouteTable
  import opened RouteHistory
  import opened Routes
  import opened Batches
  import opened Expiry
  import HttpUpsert
  import opened TcpUpsert
  import opened FrontendTls

  /** What one request, or one prune, asks of the table. */
  datatype Work<K, D> =
    | SaveWork(rows: seq<Row<K, D>>, saves: seq<SaveEnv>)
    | StepWork(step: Step<K, D>)

  ghost predicate PossibleWork<K, D>(t: Table<K, D>, w: Work<K, D>, cfg: Config<D>) {
    match w
    case SaveWork(rows, saves) => |saves| == |rows| && RealUuids(saves)
    case StepWork(step) => !step.SaveStep? && Possible(t, step, cfg)
  }

  ghost function Worked<K, D>(t: Table<K, D>, w: Work<K, D>, cfg: Config<D>): (e: Effect<K, D>)
    requires Valid(t) && PossibleWork(t, w, cfg)
    ensures Valid(e.table)
  {
    match w
    case SaveWork(rows, saves) => SaveAllValid(t, rows, saves, cfg); SaveAll(t, rows, saves, cfg)
    case StepWork(step) => StepKeepsValid(t, step, cfg); Apply(t, step, cfg)
  }

  ghost predicate PossibleWorks<K, D>(t: Table<K, D>, ws: seq<Work<K, D>>, cfg: Config<D>)
    requires Valid(t)
    decreases |ws|
  {
    ws == [] || (PossibleWork(t, ws[0], cfg) && PossibleWorks(Worked(t, ws[0], cfg).table, ws[1..], cfg))
  }

  /** The table after all of it, and every event emitted. */
  ghost function AfterWorks<K, D>(t: Table<K, D>, ws: seq<Work<K, D>>, cfg: Config<D>): (Table<K, D>, seq<Event<K, D>>)
    requires Valid(t) && PossibleWorks(t, ws, cfg)
    decreases |ws|
  {
    if ws == [] then (t, []) else
    var e := Worked(t, ws[0], cfg);
    var (t', events) := AfterWorks(e.table, ws[1..], cfg);
    (t', e.events + events)
  }

  /** Every save is of the kind the handlers let through. */
  ghost predicate Bounded<K, D>(w: Work<K, D>, maxTtl: int, latest: int) {
    w.SaveWork? ==> |w.saves| == |w.rows| &&
                    forall i :: 0 <= i < |w.rows| ==> HandlerStep(SaveSteps(w.rows, w.saves)[i], maxTtl, latest)
  }

  ghost predicate AllBounded<K, D>(ws: seq<Work<K, D>>, maxTtl: int, latest: int) {
    forall i :: 0 <= i < |ws| ==> Bounded(ws[i], maxTtl, latest)
  }

  ghost predicate AllHandled<K, D>(steps: seq<Step<K, D>>, maxTtl: int, latest: int) {
    forall i :: 0 <= i < |steps| ==> HandlerStep(steps[i], maxTtl, latest)
  }

  // ---------------------------------------------------------------- from requests to single steps

  lemma SingleRun<K, D>(t: Table<K, D>, step: Step<K, D>, cfg: Config<D>)
    requires Valid(t) && Possible(t, step, cfg)
    ensures PossibleRun(t, [step], cfg)
    ensures Run(t, [step], cfg) == (Apply(t, step, cfg).table, Apply(t, step, cfg).events)
  {
    StepKeepsValid(t, step, cfg);
    assert [step][1..] == [];
    assert Run(Apply(t, step, cfg).table, [step][1..], cfg) == (Apply(t, step, cfg).table, []);
    assert Apply(t, step, cfg).events + [] == Apply(t, step, cfg).events;
  }

  /** A request is a run of single steps, with bounded ttls. */
  lemma WorkIsRun<K, D>(t: Table<K, D>, w: Work<K, D>, cfg: Config<D>, maxTtl: int, latest: int)
    returns (steps: seq<Step<K, D>>)
    requires Valid(t) && PossibleWork(t, w, cfg) && Bounded(w, maxTtl, latest)
    ensures PossibleRun(t, steps, cfg) && AllHandled(steps, maxTtl, latest)
    ensures Run(t, steps, cfg) == (Worked(t, w, cfg).table, Worked(t, w, cfg).events)
  {
    match w
    case SaveWork(rows, saves) =>
      var n := BatchIsRun(t, rows, saves, cfg);
      steps := SaveSteps(rows, saves)[..n];
    case StepWork(step) =>
      SingleRun(t, step, cfg);
      steps := [step];
  }

  // ---------------------------------------------------------------- what that gives

  /** The log rebuilds the table, the gauge counts it, and no row outlives the longest ttl. */
  ghost predicate Kept<K, D>(v: View<K, D>, gauge: int, t: Table<K, D>, time: int) {
    Valid(t) && Mirrors(v, t) && gauge == |t| && EndsBy(t, time)
  }

  lemma WorkKept<K, D>(v: View<K, D>, gauge: int, t: Table<K, D>, w: Work<K, D>, cfg: Config<D>, maxTtl: int,
                       latest: int)
    requires Kept(v, gauge, t, latest + maxTtl * SECOND) && PossibleWork(t, w, cfg) && Bounded(w, maxTtl, latest)
    ensures var e := Worked(t, w, cfg);
            Kept(Replay(v, e.events), gauge + GaugeSum(e.events), e.table, latest + maxTtl * SECOND)
  {
    var steps := WorkIsRun(t, w, cfg, maxTtl, latest);
    RunMirrored(v, t, steps, cfg);
    RunCounted(t, steps, cfg);
    RunEndsBy(t, steps, cfg, maxTtl, latest);
  }

  /** Over whole runs of requests. */
  lemma {:induction false} WorksKept<K, D>(v: View<K, D>, gauge: int, t: Table<K, D>, ws: seq<Work<K, D>>,
                                           cfg: Config<D>,
                                           maxTtl: int, latest: int)
    requires Kept(v, gauge, t, latest + maxTtl * SECOND) && PossibleWorks(t, ws, cfg) && AllBounded(ws, maxTtl, latest)
    ensures var (t', events) := AfterWorks(t, ws, cfg);
            Kept(Replay(v, events), gauge + GaugeSum(events), t', latest + maxTtl * SECOND)
    decreases |ws|
  {
    if ws != [] {
      assert Bounded(ws[0], maxTtl, latest) && AllBounded(ws[1..], maxTtl, latest);
      WorkKept(v, gauge, t, ws[0], cfg, maxTtl, latest);
      var e := Worked(t, ws[0], cfg);
      WorksKept(Replay(v, e.events), gauge + GaugeSum(e.events), e.table, ws[1..], cfg, maxTtl, latest);
      var later := AfterWorks(e.table, ws[1..], cfg).1;
      ReplayConcat(v, e.events, later);
      GaugeConcat(e.events, later);
    }
  }

  /** One prune late enough after the last upsert empties the table. */
  ghost predicate EmptiedAfter<K(!new), D(!new)>(t: Table<K, D>, column: int -> int, time: int) {
    forall found, now :: time + SECOND < now && Answers(found, t, now, column) ==>
      Prune(t, found, false, false).table == map[]
  }

  lemma KeptIsEmptied<K(!new), D(!new)>(v: View<K, D>, gauge: int, t: Table<K, D>, column: int -> int, time: int)
    requires Kept(v, gauge, t, time) && Truncates(column)
    ensures EmptiedAfter(t, column, time)
  {
    forall found, now | time + SECOND < now && Answers(found, t, now, column)
      ensures Prune(t, found, false, false).table == map[]
    {
      LatePrune(t, found, now, column, time);
    }
  }

  // ---------------------------------------------------------------- the two handlers

  datatype HttpStep =
    | UpsertRoutes(routes: seq<Route>, parses: string -> bool, saves: seq<SaveEnv>)
    | OtherHttp(step: Step<HttpKey, HttpData>)

  /** A rejected batch asks for nothing; an acceptable one is saved with its defaults. */
  ghost function HttpWork(q: HttpStep, maxTtl: int): Work<HttpKey, HttpData> {
    match q
    case UpsertRoutes(routes, parses, saves) =>
      if HttpUpsert.Acceptable(routes, maxTtl, parses) then SaveWork(HttpUpsert.AllDefaulted(routes, maxTtl), saves)
      else SaveWork([], [])
    case OtherHttp(step) => StepWork(step)
  }

  ghost function HttpWorks(qs: seq<HttpStep>, maxTtl: int): (ws: seq<Work<HttpKey, HttpData>>)
    ensures |ws| == |qs| && forall i :: 0 <= i < |ws| ==> ws[i] == HttpWork(qs[i], maxTtl)
  {
    seq(|qs|, i requires 0 <= i < |qs| => HttpWork(qs[i], maxTtl))
  }

  ghost predicate SavedBy(saves: seq<SaveEnv>, latest: int) {
    forall i :: 0 <= i < |saves| ==> saves[i].now <= latest
  }

  /** Any run of HTTP registrations, deletions and prunes keeps what is promised of the table. */
  lemma HttpRequestsKept(qs: seq<HttpStep>, column: int -> int, maxTtl: int, latest: int)
    requires PossibleWorks(map[], HttpWorks(qs, maxTtl), HttpConfig(column))
    requires forall i :: 0 <= i < |qs| && qs[i].UpsertRoutes? ==>
               |qs[i].saves| == |qs[i].routes| && SavedBy(qs[i].saves, latest)
    ensures var (t, events) := AfterWorks(map[], HttpWorks(qs, maxTtl), HttpConfig(column));
            && Kept(Replay(map[], events), GaugeSum(events), t, latest + maxTtl * SECOND)
            && (Truncates(column) ==> EmptiedAfter(t, column, latest + maxTtl * SECOND))
  {
    forall i | 0 <= i < |qs| ensures Bounded(HttpWorks(qs, maxTtl)[i], maxTtl, latest) {
      var q := qs[i];
      if q.UpsertRoutes? && HttpUpsert.Acceptable(q.routes, maxTtl, q.parses) {
        HttpUpsert.AcceptableIsBounded(q.routes, maxTtl, q.parses, q.saves, latest);
      }
    }
    WorksKept(map[], 0, map[], HttpWorks(qs, maxTtl), HttpConfig(column), maxTtl, latest);
    var (t, events) := AfterWorks(map[], HttpWorks(qs, maxTtl), HttpConfig(column));
    if Truncates(column) {
      KeptIsEmptied(Replay(map[], events), GaugeSum(events), t, column, latest + maxTtl * SECOND);
    }
  }

  /** A TCP batch is judged against the table it finds. */
  ghost function TcpWork(t: Mappings, q: TcpStep, maxTtl: int, column: int -> int): (w: Work<TcpKey, TcpData>)
    requires PossibleTcp(t, q, column)
    ensures PossibleWork(t, w, TcpConfig(column))
  {
    match q
    case UpsertStep(mappings, groups, checks, saves) =>
      var ms := AllDefaulted(mappings, maxTtl);
      if CheckAll(t, ms, groups, maxTtl, checks, column).Some? then SaveWork([], []) else SaveWork(ms, saves)
    case OtherStep(step) => StepWork(step)
  }

  ghost predicate TcpRequests(t: Mappings, qs: seq<TcpStep>, maxTtl: int, column: int -> int, latest: int)
    requires RouteTable.Valid(t)
    decreases |qs|
  {
    qs == [] ||
    (PossibleTcp(t, qs[0], column) && (qs[0].UpsertStep? ==> SavedBy(qs[0].saves, latest)) &&
     var t' := Worked(t, TcpWork(t, qs[0], maxTtl, column), TcpConfig(column)).table;
     TcpRequests(t', qs[1..], maxTtl, column, latest))
  }

  ghost function TcpWorks(t: Mappings, qs: seq<TcpStep>, maxTtl: int, column: int -> int, latest: int)
    : (ws: seq<Work<TcpKey, TcpData>>)
    requires RouteTable.Valid(t) && TcpRequests(t, qs, maxTtl, column, latest)
    ensures PossibleWorks(t, ws, TcpConfig(column))
    decreases |qs|
  {
    if qs == [] then [] else
    var w := TcpWork(t, qs[0], maxTtl, column);
    var rest := TcpWorks(Worked(t, w, TcpConfig(column)).table, qs[1..], maxTtl, column, latest);
    assert ([w] + rest)[1..] == rest;
    [w] + rest
  }

  lemma TcpWorkBounded(t: Mappings, q: TcpStep, maxTtl: int, column: int -> int, latest: int)
    requires PossibleTcp(t, q, column) && (q.UpsertStep? ==> SavedBy(q.saves, latest))
    ensures Bounded(TcpWork(t, q, maxTtl, column), maxTtl, latest)
  {
    if q.UpsertStep? {
      var ms := AllDefaulted(q.mappings, maxTtl);
      if CheckAll(t, ms, q.groups, maxTtl, q.checks, column).None? {
        AcceptedIsBounded(t, ms, q.groups, maxTtl, q.checks, column, q.saves, latest);
      }
    }
  }

  lemma ConsBounded<K, D>(w: Work<K, D>, rest: seq<Work<K, D>>, maxTtl: int, latest: int)
    requires Bounded(w, maxTtl, latest) && AllBounded(rest, maxTtl, latest)
    ensures AllBounded([w] + rest, maxTtl, latest)
  {
  }

  lemma {:induction false} TcpWorksBounded(t: Mappings, qs: seq<TcpStep>, maxTtl: int, column: int -> int, latest: int)
    requires RouteTable.Valid(t) && TcpRequests(t, qs, maxTtl, column, latest)
    ensures AllBounded(TcpWorks(t, qs, maxTtl, column, latest), maxTtl, latest)
    decreases |qs|
  {
    if qs != [] {
      TcpWorkBounded(t, qs[0], maxTtl, column, latest);
      var w := TcpWork(t, qs[0], maxTtl, column);
      var t' := Worked(t, w, TcpConfig(column)).table;
      TcpWorksBounded(t', qs[1..], maxTtl, column, latest);
      ConsBounded(w, TcpWorks(t', qs[1..], maxTtl, column, latest), maxTtl, latest);
    }
  }

  /** So does any run of TCP registrations, deletions and prunes. */
  lemma TcpRequestsKept(qs: seq<TcpStep>, column: int -> int, maxTtl: int, latest: int)
    requires TcpRequests(map[], qs, maxTtl, column, latest)
    ensures var (t, events) := AfterWorks(map[], TcpWorks(map[], qs, maxTtl, column, latest), TcpConfig(column));
            && Kept(Replay(map[], events), GaugeSum(events), t, latest + maxTtl * SECOND)
            && (Truncates(column) ==> EmptiedAfter(t, column, latest + maxTtl * SECOND))
  {
    TcpWorksBounded(map[], qs, maxTtl, column, latest);
    var ws := TcpWorks(map[], qs, maxTtl, column, latest);
    WorksKept(map[], 0, map[], ws, TcpConfig(column), maxTtl, latest);
    var (t, events) := AfterWorks(map[], ws, TcpConfig(column));
    if Truncates(column) {
      KeptIsEmptied(Replay(map[], events), GaugeSum(events), t, column, latest + maxTtl * SECOND);
    }
  }
}
