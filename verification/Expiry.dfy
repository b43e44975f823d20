/** Expiry: a route outlives its last upsert by its ttl, and no stored route outlives the longest ttl for long. */
module Expiry {
  import opened Common
  import opened RouteTable
  import opened RouteHistory

  /** The database keeps an expiry time to within a second, never later than asked. */
  ghost predicate Truncates(column: int -> int) {
    forall e :: e - SECOND < column(e) <= e
  }

  /** An upsert of key `k` that succeeds is the last one from then on. */
  ghost function NextSave<K, D>(last: Option<int>, t: Table<K, D>, step: Step<K, D>, cfg: Config<D>, k: K): Option<int>
    requires Valid(t)
  {
    if step.SaveStep? && step.row.key == k && Apply(t, step, cfg).error.None? then Some(step.env.now) else last
  }

  /** The time of the last upsert of key `k` that reached the table. */
  ghost function LastSave<K, D>(last: Option<int>, t: Table<K, D>, steps: seq<Step<K, D>>, cfg: Config<D>, k: K)
    : Option<int>
    requires Valid(t) && PossibleRun(t, steps, cfg)
    decreases |steps|
  {
    if steps == [] then last else
    StepKeepsValid(t, steps[0], cfg);
    var e := Apply(t, steps[0], cfg);
    LastSave(NextSave(last, t, steps[0], cfg, k), e.table, steps[1..], cfg, k)
  }

  /** A stored row expires its ttl after `last`. */
  ghost predicate Dated<K, D>(last: Option<int>, t: Table<K, D>, k: K)
    requires Valid(t)
  {
    forall g :: g in t && t[g].key == k ==> last.Some? && t[g].expiresAt == last.value + t[g].ttl.value * SECOND
  }

  lemma {:induction false} RunDated<K, D>(last: Option<int>, t: Table<K, D>, steps: seq<Step<K, D>>, cfg: Config<D>,
                                          k: K)
    requires Valid(t) && PossibleRun(t, steps, cfg) && Dated(last, t, k)
    ensures Valid(Run(t, steps, cfg).0) && Dated(LastSave(last, t, steps, cfg, k), Run(t, steps, cfg).0, k)
    decreases |steps|
  {
    if steps != [] {
      StepKeepsValid(t, steps[0], cfg);
      var e := Apply(t, steps[0], cfg);
      var last' := NextSave(last, t, steps[0], cfg, k);
      StepDated(last, t, steps[0], cfg, k);
      RunDated(last', e.table, steps[1..], cfg, k);
    }
  }

  lemma StepDated<K, D>(last: Option<int>, t: Table<K, D>, step: Step<K, D>, cfg: Config<D>, k: K)
    requires Valid(t) && Possible(t, step, cfg) && Dated(last, t, k)
    requires Valid(Apply(t, step, cfg).table)
    ensures Dated(NextSave(last, t, step, cfg, k), Apply(t, step, cfg).table, k)
  {
  }

  /** A prune never takes a route before the ttl of its last upsert is over. */
  lemma NeverPrunedEarly<K, D>(steps: seq<Step<K, D>>, found: seq<Row<K, D>>, now: int, cfg: Config<D>, i: nat)
    requires Truncates(cfg.column) && PossibleRun(map[], steps, cfg)
    requires Answers(found, Run(map[], steps, cfg).0, now, cfg.column) && i < |found|
    ensures found[i].ttl.Some?
    ensures LastSave(None, map[], steps, cfg, found[i].key).Some?
    ensures LastSave(None, map[], steps, cfg, found[i].key).value + found[i].ttl.value * SECOND < now
  {
    RunDated(None, map[], steps, cfg, found[i].key);
    var g := found[i].guid;
    assert Run(map[], steps, cfg).0[g] == found[i];
    assert cfg.column(found[i].expiresAt) < now - SECOND;
  }

  /** What the handlers let through: a ttl between one and the maximum, at a time no later than `latest`. */
  ghost predicate HandlerStep<K, D>(step: Step<K, D>, maxTtl: int, latest: int) {
    step.SaveStep? ==> step.row.ttl.Some? && 0 < step.row.ttl.value <= maxTtl && step.env.now <= latest
  }

  ghost predicate EndsBy<K, D>(t: Table<K, D>, time: int) {
    forall g :: g in t ==> t[g].expiresAt <= time
  }

  lemma {:induction false} RunEndsBy<K, D>(t: Table<K, D>, steps: seq<Step<K, D>>, cfg: Config<D>, maxTtl: int,
                                           latest: int)
    requires Valid(t) && PossibleRun(t, steps, cfg) && EndsBy(t, latest + maxTtl * SECOND)
    requires forall i :: 0 <= i < |steps| ==> HandlerStep(steps[i], maxTtl, latest)
    ensures EndsBy(Run(t, steps, cfg).0, latest + maxTtl * SECOND)
    decreases |steps|
  {
    if steps != [] {
      StepKeepsValid(t, steps[0], cfg);
      var e := Apply(t, steps[0], cfg);
      assert HandlerStep(steps[0], maxTtl, latest);
      assert EndsBy(e.table, latest + maxTtl * SECOND);
      RunEndsBy(e.table, steps[1..], cfg, maxTtl, latest);
    }
  }

  /** A prune late enough after every expiry leaves nothing. */
  lemma LatePrune<K, D>(t: Table<K, D>, found: seq<Row<K, D>>, now: int, column: int -> int, time: int)
    requires Valid(t) && EndsBy(t, time) && Truncates(column) && time + SECOND < now && Answers(found, t, now, column)
    ensures Prune(t, found, false, false).table == map[]
  {
    PaddingIsHarmless(t, found);
    forall g | g in t ensures g in GuidsOf(found) {
      assert column(t[g].expiresAt) <= t[g].expiresAt;
      assert Expired(t[g], now, column);
    }
  }

  /** Once the longest ttl and a second have passed since the last upsert, one prune empties the table. */
  lemma PruneEmptiesTable<K, D>(steps: seq<Step<K, D>>, found: seq<Row<K, D>>, now: int, cfg: Config<D>,
                                maxTtl: int, latest: int)
    requires Truncates(cfg.column) && PossibleRun(map[], steps, cfg)
    requires forall i :: 0 <= i < |steps| ==> HandlerStep(steps[i], maxTtl, latest)
    requires latest + (maxTtl + 1) * SECOND < now
    requires Answers(found, Run(map[], steps, cfg).0, now, cfg.column)
    ensures Prune(Run(map[], steps, cfg).0, found, false, false).table == map[]
  {
    RunEndsBy(map[], steps, cfg, maxTtl, latest);
    RunKeepsKeys(map[], steps, cfg);
    LatePrune(Run(map[], steps, cfg).0, found, now, cfg.column, latest + maxTtl * SECOND);
  }
}
