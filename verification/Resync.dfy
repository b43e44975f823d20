/**
 A router that subscribes, later takes a listing as its table, and then applies every event since it
 subscribed, by the documented tag rules: many of those events are older than the listing.
 */
module Resync {
  import opened Common
  import opened RouteTable
  import opened TaggedRouter

  /** What a listing at time `now` shows under `k`: a row that has not expired. */
  ghost function Listed<K, D>(t: Table<K, D>, k: K, now: int, column: int -> int): Option<Visible<K, D>> {
    var h := Holder(t, k);
    if h.Some? && now < column(t[h.value].expiresAt) then Some(Show(t[h.value])) else None
  }

  ghost predicate Silent<K, D>(events: seq<Event<K, D>>, k: K) {
    forall i :: 0 <= i < |events| ==> events[i].value.key != k
  }

  // ---------------------------------------------------------------- one step

  /** An expiry takes away what is held, or nothing. */
  lemma {:induction false} ExpiriesDrop<K, D>(held: Option<Visible<K, D>>, found: seq<Row<K, D>>, k: K)
    ensures var held' := FollowAll(held, ExpireEvents(found), k);
            held' == held || (held' == None && k in KeysOf(found))
    decreases |found|
  {
    if found != [] {
      var rest := found[1..];
      assert ExpireEvents(found)[1..] == ExpireEvents(rest);
      ExpiriesDrop(FollowTags(held, ExpireEvents(found)[0], k), rest, k);
      assert found[0].key in KeysOf(found);
      if k in KeysOf(rest) {
        var i :| 0 <= i < |rest| && rest[i].key == k;
        assert found[i + 1].key == k;
      }
    }
  }

  lemma PruneExpected<K, D>(t: Table<K, D>, found: seq<Row<K, D>>, now: int, column: int -> int, k: K)
    requires Valid(t) && Answers(found, t, now, column)
    ensures Expected(Prune(t, found, false, false).table, k) == if k in KeysOf(found) then None else Expected(t, k)
    ensures Silent(ExpireEvents(found), k) <==> k !in KeysOf(found)
  {
    PaddingIsHarmless(t, found);
    FoundByKey(t, found, now, column);
    DropExpected(t, GuidsOf(found), KeysOf(found), k);
    if !Silent(ExpireEvents(found), k) {
      var i :| 0 <= i < |found| && ExpireEvents(found)[i].value.key == k;
      assert found[i].key in KeysOf(found);
    }
    if k in KeysOf(found) {
      var i :| 0 <= i < |found| && found[i].key == k;
      assert ExpireEvents(found)[i].value.key == k;
    }
  }

  /**
   A single event about `k` shows what is stored from then on; an upsert shows the row, a removal that there is
   none.
   */
  lemma OneEvent<K, D>(t: Table<K, D>, step: Step<K, D>, cfg: Config<D>, k: K)
    requires Valid(t) && Possible(t, step, cfg) && !step.PruneStep? && Apply(t, step, cfg).error.None?
    ensures var e := Apply(t, step, cfg);
            && |e.events| == 1
            && (e.events[0].kind == CreateEvent || e.events[0].kind == UpdateEvent || e.events[0].kind == DeleteEvent)
            && Expected(e.table, k) == if e.events[0].value.key != k then Expected(t, k)
                                       else if e.events[0].kind == DeleteEvent then None else Some(e.events[0].value)
  {
    match step
    case SaveStep(row, env) =>
      SavePuts(t, row, env, cfg);
      SaveExpected(t, row, env, cfg, k);
    case RemoveStep(key, _, _) => DropExpected(t, {Holder(t, key).value}, {key}, k);
  }

  /** Whatever the router holds, a step leaves it that, or makes it right. */
  lemma StepEither<K, D>(held: Option<Visible<K, D>>, t: Table<K, D>, step: Step<K, D>, cfg: Config<D>, k: K)
    requires Valid(t) && Possible(t, step, cfg)
    ensures var e := Apply(t, step, cfg);
            var held' := FollowAll(held, e.events, k);
            held' == held || held' == Expected(e.table, k)
  {
    var e := Apply(t, step, cfg);
    if e.error.None? {
      if step.PruneStep? {
        ExpiriesDrop(held, step.found, k);
        PruneExpected(t, step.found, step.now, cfg.column, k);
      } else {
        OneEvent(t, step, cfg, k);
        FollowSingle(held, e.events, k);
      }
    }
  }

  /** From nothing, the first event about `k` makes the router right, and a step without one changes nothing. */
  lemma StepFromNothing<K, D>(t: Table<K, D>, step: Step<K, D>, cfg: Config<D>, k: K)
    requires Valid(t) && Possible(t, step, cfg)
    ensures var e := Apply(t, step, cfg);
            && FollowAll(None, e.events, k) == (if Silent(e.events, k) then None else Expected(e.table, k))
            && (Silent(e.events, k) ==> Expected(e.table, k) == Expected(t, k))
  {
    var e := Apply(t, step, cfg);
    if e.error.None? {
      if step.PruneStep? {
        ExpiriesDrop(None, step.found, k);
        PruneExpected(t, step.found, step.now, cfg.column, k);
      } else {
        OneEvent(t, step, cfg, k);
        FollowSingle(None, e.events, k);
      }
    }
  }

  // ---------------------------------------------------------------- runs

  lemma {:induction false} RunEither<K, D>(held: Option<Visible<K, D>>, snapshot: Option<Visible<K, D>>, t: Table<K, D>,
                                           steps: seq<Step<K, D>>, cfg: Config<D>, k: K)
    requires Valid(t) && PossibleRun(t, steps, cfg) && NeverWraps(t, steps, cfg, k)
    requires held == Expected(t, k) || held == snapshot
    ensures var held' := FollowAll(held, Run(t, steps, cfg).1, k);
            held' == Expected(Run(t, steps, cfg).0, k) || held' == snapshot
    decreases |steps|
  {
    if steps != [] {
      StepKeepsValid(t, steps[0], cfg);
      var e := Apply(t, steps[0], cfg);
      StepInStep(t, steps[0], cfg, k);
      StepEither(held, t, steps[0], cfg, k);
      RunEither(FollowAll(held, e.events, k), snapshot, e.table, steps[1..], cfg, k);
      FollowConcat(held, e.events, Run(e.table, steps[1..], cfg).1, k);
    }
  }

  lemma SilentConcat<K, D>(a: seq<Event<K, D>>, b: seq<Event<K, D>>, k: K)
    ensures Silent(a + b, k) <==> Silent(a, k) && Silent(b, k)
  {
    if Silent(a + b, k) {
      forall i | 0 <= i < |a| ensures a[i].value.key != k { assert (a + b)[i] == a[i]; }
      forall i | 0 <= i < |b| ensures b[i].value.key != k { assert (a + b)[|a| + i] == b[i]; }
    }
  }

  lemma {:induction false} RunFromNothing<K, D>(t: Table<K, D>, steps: seq<Step<K, D>>, cfg: Config<D>, k: K)
    requires Valid(t) && PossibleRun(t, steps, cfg) && NeverWraps(t, steps, cfg, k)
    ensures var (t', events) := Run(t, steps, cfg);
            && FollowAll(None, events, k) == (if Silent(events, k) then None else Expected(t', k))
            && (Silent(events, k) ==> Expected(t', k) == Expected(t, k))
    decreases |steps|
  {
    if steps != [] {
      StepKeepsValid(t, steps[0], cfg);
      var e := Apply(t, steps[0], cfg);
      var later := Run(e.table, steps[1..], cfg).1;
      StepFromNothing(t, steps[0], cfg, k);
      FollowConcat(None, e.events, later, k);
      SilentConcat(e.events, later, k);
      RunFromNothing(e.table, steps[1..], cfg, k);
      RunInStep(e.table, steps[1..], cfg, k);
    }
  }

  /**
   Listed after `before`, subscribed at its start, caught up after `after`, without a wrap: the router holds exactly
   what is stored, except for a row that had expired at the listing without being pruned, and of which there has been
   no event at all since the subscription.
   */
  lemma ResyncIff<K, D>(t: Table<K, D>, before: seq<Step<K, D>>, after: seq<Step<K, D>>, now: int, cfg: Config<D>, k: K)
    requires Valid(t) && PossibleRun(t, before, cfg) && NeverWraps(t, before, cfg, k)
    requires Valid(Run(t, before, cfg).0)
    requires PossibleRun(Run(t, before, cfg).0, after, cfg) && NeverWraps(Run(t, before, cfg).0, after, cfg, k)
    ensures var (t1, events1) := Run(t, before, cfg);
            var (t2, events2) := Run(t1, after, cfg);
            FollowAll(Listed(t1, k, now, cfg.column), events1 + events2, k) == Expected(t2, k) <==>
            !(Holds(t1, k) && Listed(t1, k, now, cfg.column).None? && Silent(events1 + events2, k))
  {
    var (t1, events1) := Run(t, before, cfg);
    var (t2, events2) := Run(t1, after, cfg);
    var listed := Listed(t1, k, now, cfg.column);
    FollowConcat(listed, events1, events2, k);
    SilentConcat(events1, events2, k);
    RunInStep(t1, after, cfg, k);
    if listed == Expected(t1, k) {
      RunEither(listed, listed, t, before, cfg, k);
    } else {
      RunFromNothing(t, before, cfg, k);
      RunFromNothing(t1, after, cfg, k);
    }
  }
}
