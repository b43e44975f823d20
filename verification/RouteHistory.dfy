/**
 What whole runs of saves, deletes and prunes guarantee: one row per key, a log that rebuilds
 the table, and a gauge that counts it.
 */
module RouteHistory {
  import opened Common
  import opened RouteTable

  // ---------------------------------------------------------------- unique keys

  /** However a run goes, no key is held twice. */
  lemma {:induction false} RunKeepsKeys<K, D>(t: Table<K, D>, steps: seq<Step<K, D>>, cfg: Config<D>)
    requires Valid(t) && PossibleRun(t, steps, cfg)
    ensures Valid(Run(t, steps, cfg).0)
    decreases |steps|
  {
    if steps != [] {
      StepKeepsValid(t, steps[0], cfg);
      RunKeepsKeys(Apply(t, steps[0], cfg).table, steps[1..], cfg);
    }
  }

  // ---------------------------------------------------------------- replay

  /** A subscriber's routing table: the last visible version of each key. */
  type View<K, D> = map<K, Visible<K, D>>

  /** A subscriber puts on an upsert and drops on a delete or an expiry. */
  ghost function Receive<K, D>(v: View<K, D>, e: Event<K, D>): View<K, D> {
    match e.kind
    case CreateEvent | UpdateEvent => v[e.value.key := e.value]
    case DeleteEvent | ExpireEvent => v - {e.value.key}
    case InvalidEvent => v
  }

  ghost function Replay<K, D>(v: View<K, D>, events: seq<Event<K, D>>): View<K, D>
    decreases |events|
  {
    if events == [] then v else Replay(Receive(v, events[0]), events[1..])
  }

  /** The view holds exactly the rows of the table, as their JSON shows them. */
  ghost predicate Mirrors<K, D>(v: View<K, D>, t: Table<K, D>) {
    && (forall g :: g in t ==> t[g].key in v && v[t[g].key] == Show(t[g]))
    && (forall k :: k in v ==> Holds(t, k))
  }

  lemma {:induction false} ReplayConcat<K, D>(v: View<K, D>, a: seq<Event<K, D>>, b: seq<Event<K, D>>)
    ensures Replay(v, a + b) == Replay(Replay(v, a), b)
    decreases |a|
  {
    if a == [] {
      assert a + b == b;
    } else {
      assert (a + b)[1..] == a[1..] + b;
      ReplayConcat(Receive(v, a[0]), a[1..], b);
    }
  }

  lemma {:induction false} ReplayExpiries<K, D>(v: View<K, D>, found: seq<Row<K, D>>)
    ensures Replay(v, ExpireEvents(found)) == v - KeysOf(found)
    decreases |found|
  {
    if found == [] {
      assert v - KeysOf(found) == v;
    } else {
      var first, rest := found[0], found[1..];
      assert ExpireEvents(found)[1..] == ExpireEvents(rest);
      assert Receive(v, ExpireEvents(found)[0]) == v - {first.key};
      ReplayExpiries(v - {first.key}, rest);
      assert KeysOf(found) == {first.key} + KeysOf(rest) by {
        forall k | k in KeysOf(found) ensures k in {first.key} + KeysOf(rest) {
          var i :| 0 <= i < |found| && found[i].key == k;
          if i > 0 { assert rest[i - 1].key == k; }
        }
        forall k | k in KeysOf(rest) ensures k in KeysOf(found) {
          var i :| 0 <= i < |rest| && rest[i].key == k;
          assert found[i + 1].key == k;
        }
      }
      assert v - {first.key} - KeysOf(rest) == v - KeysOf(found);
    }
  }

  lemma PutMirrored<K, D>(v: View<K, D>, t: Table<K, D>, row: Row<K, D>)
    requires Valid(t) && Mirrors(v, t)
    requires row.guid in t ==> t[row.guid].key == row.key
    requires row.guid !in t ==> !Holds(t, row.key)
    ensures Mirrors(v[row.key := Show(row)], t[row.guid := row])
  {
    var t' := t[row.guid := row];
    forall k | k in v && k != row.key ensures Holds(t', k) {
      var g :| g in t && t[g].key == k;
      assert g in t' && t'[g].key == k;
    }
    assert row.guid in t' && t'[row.guid].key == row.key;
  }

  lemma DropMirrored<K, D>(v: View<K, D>, t: Table<K, D>, guids: set<string>, keys: set<K>)
    requires Valid(t) && Mirrors(v, t)
    requires forall g :: g in t ==> (g in guids <==> t[g].key in keys)
    ensures Mirrors(v - keys, t - guids)
  {
    var t' := t - guids;
    forall k | k in v && k !in keys ensures Holds(t', k) {
      var g :| g in t && t[g].key == k;
      assert g in t' && t'[g].key == k;
    }
  }

  lemma PruneMirrored<K, D>(v: View<K, D>, t: Table<K, D>, found: seq<Row<K, D>>, now: int, column: int -> int)
    requires Valid(t) && Answers(found, t, now, column) && Mirrors(v, t)
    ensures Mirrors(Replay(v, ExpireEvents(found)), Prune(t, found, false, false).table)
  {
    ReplayExpiries(v, found);
    PaddingIsHarmless(t, found);
    FoundByKey(t, found, now, column);
    DropMirrored(v, t, GuidsOf(found), KeysOf(found));
  }

  lemma StepMirrored<K, D>(v: View<K, D>, t: Table<K, D>, step: Step<K, D>, cfg: Config<D>)
    requires Valid(t) && Possible(t, step, cfg) && Mirrors(v, t)
    ensures Mirrors(Replay(v, Apply(t, step, cfg).events), Apply(t, step, cfg).table)
  {
    var e := Apply(t, step, cfg);
    if e.error.None? {
      match step
      case PruneStep(found, now, _, _) =>
        PruneMirrored(v, t, found, now, cfg.column);
      case RemoveStep(key, _, _) =>
        assert Replay(v, e.events) == v - {key} by { assert e.events[1..] == []; }
        DropMirrored(v, t, {Holder(t, key).value}, {key});
      case SaveStep(row, env) =>
        var g := SavedUnder(t, row, env);
        assert Replay(v, e.events) == v[row.key := Show(e.table[g])] by { assert e.events[1..] == []; }
        PutMirrored(v, t, e.table[g]);
    }
  }

  /** A subscriber that starts from a faithful copy and replays a run's events ends with a faithful copy. */
  lemma {:induction false} RunMirrored<K, D>(v: View<K, D>, t: Table<K, D>, steps: seq<Step<K, D>>, cfg: Config<D>)
    requires Valid(t) && PossibleRun(t, steps, cfg) && Mirrors(v, t)
    ensures Mirrors(Replay(v, Run(t, steps, cfg).1), Run(t, steps, cfg).0)
    decreases |steps|
  {
    if steps != [] {
      StepKeepsValid(t, steps[0], cfg);
      StepMirrored(v, t, steps[0], cfg);
      var e := Apply(t, steps[0], cfg);
      var v' := Replay(v, e.events);
      RunMirrored(v', e.table, steps[1..], cfg);
      ReplayConcat(v, e.events, Run(e.table, steps[1..], cfg).1);
    }
  }

  /** The view a table determines is the only one that mirrors it. */
  lemma MirrorIsUnique<K, D>(v: View<K, D>, w: View<K, D>, t: Table<K, D>)
    requires Mirrors(v, t) && Mirrors(w, t)
    ensures v == w
  {
    forall k | k in v ensures k in w && v[k] == w[k] {
      var g :| g in t && t[g].key == k;
    }
    forall k | k in w ensures k in v {
      var g :| g in t && t[g].key == k;
    }
  }

  // ---------------------------------------------------------------- the gauge

  /** What the metrics reporter adds to its gauge on one event. */
  function GaugeDelta(kind: EventType): (d: int) {
    if kind == CreateEvent then 1
    else if kind == ExpireEvent || kind == DeleteEvent then -1
    else 0
  }

  ghost function GaugeSum<K, D>(events: seq<Event<K, D>>): int {
    if events == [] then 0 else GaugeDelta(events[0].kind) + GaugeSum(events[1..])
  }

  lemma {:induction false} GaugeConcat<K, D>(a: seq<Event<K, D>>, b: seq<Event<K, D>>)
    ensures GaugeSum(a + b) == GaugeSum(a) + GaugeSum(b)
  {
    if a == [] {
      assert a + b == b;
    } else {
      assert (a + b)[1..] == a[1..] + b;
      GaugeConcat(a[1..], b);
    }
  }

  lemma {:induction false} GaugeOfExpiries<K, D>(found: seq<Row<K, D>>)
    ensures GaugeSum(ExpireEvents(found)) == -|found|
  {
    if found != [] {
      assert ExpireEvents(found)[1..] == ExpireEvents(found[1..]);
      GaugeOfExpiries(found[1..]);
    }
  }

  /** Deleting by guid removes as many rows as there are of those guids in the table. */
  lemma RemovedCount<K, D>(t: Table<K, D>, guids: set<string>)
    ensures |t - guids| == |t| - |t.Keys * guids|
  {
    assert (t - guids).Keys == t.Keys - t.Keys * guids;
    assert |t.Keys - t.Keys * guids| == |t.Keys| - |t.Keys * guids|;
  }

  lemma {:induction false} GuidCount<K, D>(found: seq<Row<K, D>>)
    requires forall i, j :: 0 <= i < j < |found| ==> found[i].guid != found[j].guid
    ensures |GuidsOf(found)| == |found|
  {
    var guids := seq(|found|, i requires 0 <= i < |found| => found[i].guid);
    forall g | g in GuidsOf(found) ensures g in guids {
      var i :| 0 <= i < |found| && found[i].guid == g;
      assert guids[i] == g;
    }
    ListingSize(guids, GuidsOf(found));
  }

  lemma PruneCounted<K, D>(t: Table<K, D>, found: seq<Row<K, D>>, now: int, column: int -> int)
    requires Valid(t) && Answers(found, t, now, column)
    ensures GaugeSum(ExpireEvents(found)) == |Prune(t, found, false, false).table| - |t|
  {
    PaddingIsHarmless(t, found);
    GaugeOfExpiries(found);
    RemovedCount(t, GuidsOf(found));
    GuidCount(found);
    assert GuidsOf(found) <= t.Keys;
    assert t.Keys * GuidsOf(found) == GuidsOf(found);
  }

  lemma GaugeOfOne<K, D>(e: Event<K, D>)
    ensures GaugeSum([e]) == GaugeDelta(e.kind)
  {
    assert [e][1..] == [];
  }

  lemma PutCount<K, D>(t: Table<K, D>, row: Row<K, D>)
    ensures |t[row.guid := row]| == |t| + if row.guid in t then 0 else 1
  {
    assert t[row.guid := row].Keys == t.Keys + {row.guid};
  }

  lemma RemoveCounted<K, D>(t: Table<K, D>, key: K, findFails: bool, writeFails: bool)
    ensures var e := Remove(t, key, findFails, writeFails); GaugeSum(e.events) == |e.table| - |t|
  {
    var e := Remove(t, key, findFails, writeFails);
    if e.error.None? {
      var g := Holder(t, key).value;
      RemovedCount(t, {g});
      assert t.Keys * {g} == {g};
      GaugeOfOne(e.events[0]);
    }
  }

  lemma SaveCounted<K, D>(t: Table<K, D>, row: Row<K, D>, env: SaveEnv, cfg: Config<D>)
    requires Valid(t)
    ensures var e := Save(t, row, env, cfg); GaugeSum(e.events) == |e.table| - |t|
  {
    var e := Save(t, row, env, cfg);
    if e.error.None? {
      var g := SavedUnder(t, row, env);
      PutCount(t, e.table[g]);
      GaugeOfOne(e.events[0]);
    }
  }

  lemma StepCounted<K, D>(t: Table<K, D>, step: Step<K, D>, cfg: Config<D>)
    requires Valid(t) && Possible(t, step, cfg)
    ensures var e := Apply(t, step, cfg); GaugeSum(e.events) == |e.table| - |t|
  {
    match step
    case PruneStep(found, now, findFails, writeFails) =>
      if !findFails && !writeFails { PruneCounted(t, found, now, cfg.column); }
    case RemoveStep(key, findFails, writeFails) => RemoveCounted(t, key, findFails, writeFails);
    case SaveStep(row, env) => SaveCounted(t, row, env, cfg);
  }

  /** Over any run the gauge moves by exactly the change in the number of stored rows. */
  lemma {:induction false} RunCounted<K, D>(t: Table<K, D>, steps: seq<Step<K, D>>, cfg: Config<D>)
    requires Valid(t) && PossibleRun(t, steps, cfg)
    ensures GaugeSum(Run(t, steps, cfg).1) == |Run(t, steps, cfg).0| - |t|
    decreases |steps|
  {
    if steps != [] {
      StepKeepsValid(t, steps[0], cfg);
      StepCounted(t, steps[0], cfg);
      var e := Apply(t, steps[0], cfg);
      RunCounted(e.table, steps[1..], cfg);
      GaugeConcat(e.events, Run(e.table, steps[1..], cfg).1);
    }
  }
}
