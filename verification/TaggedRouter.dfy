/** A router that applies events by the documented tag rules, for upserts and for deletes. */
module TaggedRouter {
  import opened Common
  import opened ModificationTags
  import opened RouteTable
  import opened RowLife

  /** A delete is applied when the held tag is succeeded by, or equal to, the event's. */
  ghost function FollowTags<K, D>(held: Option<Visible<K, D>>, e: Event<K, D>, k: K): Option<Visible<K, D>> {
    if e.value.key != k then held else
    match e.kind
    case CreateEvent | UpdateEvent => Consider(held, e.value)
    case DeleteEvent | ExpireEvent =>
      if held.None? then None
      else if SucceededBy(Some(held.value.tag), e.value.tag) || held.value.tag == e.value.tag then None else held
    case InvalidEvent => held
  }

  ghost function FollowAll<K, D>(held: Option<Visible<K, D>>, events: seq<Event<K, D>>, k: K): Option<Visible<K, D>>
    decreases |events|
  {
    if events == [] then held else FollowAll(FollowTags(held, events[0], k), events[1..], k)
  }

  /** What a router in step with the table holds under `k`. */
  ghost function Expected<K, D>(t: Table<K, D>, k: K): Option<Visible<K, D>> {
    if Holds(t, k) then Some(Current(t, k)) else None
  }

  /** The step is a successful update of the row of `k` whose index is at its last value. */
  ghost predicate Wraps<K, D>(t: Table<K, D>, step: Step<K, D>, cfg: Config<D>, k: K)
    requires Valid(t)
  {
    && step.SaveStep? && step.row.key == k && Apply(t, step, cfg).error.None?
    && exists g :: g in t && t[g].key == k && t[g].tag.index == INDEX_LIMIT - 1
  }

  lemma {:induction false} FollowConcat<K, D>(held: Option<Visible<K, D>>, a: seq<Event<K, D>>, b: seq<Event<K, D>>,
                                              k: K)
    ensures FollowAll(held, a + b, k) == FollowAll(FollowAll(held, a, k), b, k)
    decreases |a|
  {
    if a == [] {
      assert a + b == b;
    } else {
      assert (a + b)[1..] == a[1..] + b;
      FollowConcat(FollowTags(held, a[0], k), a[1..], b, k);
    }
  }

  lemma {:induction false} FollowExpiries<K, D>(held: Option<Visible<K, D>>, found: seq<Row<K, D>>, k: K)
    requires held.Some? ==> forall i :: 0 <= i < |found| && found[i].key == k ==> found[i].tag == held.value.tag
    ensures FollowAll(held, ExpireEvents(found), k) == if k in KeysOf(found) then None else held
    decreases |found|
  {
    if found != [] {
      var rest := found[1..];
      assert ExpireEvents(found)[1..] == ExpireEvents(rest);
      var held' := FollowTags(held, ExpireEvents(found)[0], k);
      FollowExpiries(held', rest, k);
      assert k in KeysOf(found) <==> k == found[0].key || k in KeysOf(rest) by {
        if k in KeysOf(found) {
          var i :| 0 <= i < |found| && found[i].key == k;
          assert i > 0 ==> rest[i - 1].key == k;
        }
        if k in KeysOf(rest) {
          var i :| 0 <= i < |rest| && rest[i].key == k;
          assert found[i + 1].key == k;
        }
      }
    }
  }

  lemma DropExpected<K, D>(t: Table<K, D>, guids: set<string>, keys: set<K>, k: K)
    requires Valid(t) && forall g :: g in t ==> (g in guids <==> t[g].key in keys)
    ensures Expected(t - guids, k) == if k in keys then None else Expected(t, k)
  {
    var t' := t - guids;
    if k !in keys && Holds(t, k) {
      var g := Holder(t, k).value;
      assert g in t' && t'[g].key == k;
      assert Holder(t', k) == Some(g);
    }
  }

  lemma PruneInStep<K, D>(t: Table<K, D>, found: seq<Row<K, D>>, now: int, column: int -> int, k: K)
    requires Valid(t) && Answers(found, t, now, column)
    ensures FollowAll(Expected(t, k), ExpireEvents(found), k) == Expected(Prune(t, found, false, false).table, k)
  {
    PaddingIsHarmless(t, found);
    FoundByKey(t, found, now, column);
    DropExpected(t, GuidsOf(found), KeysOf(found), k);
    forall i | 0 <= i < |found| && found[i].key == k && Holds(t, k) ensures found[i].tag == Current(t, k).tag {
      assert Holder(t, k) == Some(found[i].guid);
    }
    FollowExpiries(Expected(t, k), found, k);
  }

  /** The tag guids are real ones. */
  ghost predicate Tagged<K, D>(t: Table<K, D>) {
    forall g :: g in t ==> t[g].tag.guid != ""
  }

  lemma SaveExpected<K, D>(t: Table<K, D>, row: Row<K, D>, env: SaveEnv, cfg: Config<D>, k: K)
    requires Valid(t) && Possible(t, SaveStep(row, env), cfg) && Save(t, row, env, cfg).error.None?
    ensures var e := Save(t, row, env, cfg);
            Expected(e.table, k) == if k == row.key then Some(e.events[0].value) else Expected(t, k)
  {
    var e, g := Save(t, row, env, cfg), SavedUnder(t, row, env);
    StepKeepsValid(t, SaveStep(row, env), cfg);
    SavePuts(t, row, env, cfg);
    PutHolder(t, e.table[g], k);
    assert Holds(e.table, k) <==> Holder(e.table, k).Some?;
    assert Holds(t, k) <==> Holder(t, k).Some?;
  }

  /** A router that is right is right after an upsert exactly if the index did not wrap. */
  lemma SaveInStep<K, D>(t: Table<K, D>, row: Row<K, D>, env: SaveEnv, cfg: Config<D>, k: K)
    requires Valid(t) && Possible(t, SaveStep(row, env), cfg) && Save(t, row, env, cfg).error.None?
    ensures var e := Save(t, row, env, cfg);
            var right := FollowTags(Expected(t, k), e.events[0], k) == Expected(e.table, k);
            if Wraps(t, SaveStep(row, env), cfg, k) then Tagged(t) ==> !right else right
  {
    var e, g := Save(t, row, env, cfg), SavedUnder(t, row, env);
    SavePuts(t, row, env, cfg);
    SaveExpected(t, row, env, cfg, k);
    if k == row.key {
      if g in t {
        assert Holder(t, k) == Some(g) && Expected(t, k) == Some(Show(t[g]));
        assert Wraps(t, SaveStep(row, env), cfg, k) <==> t[g].tag.index == INDEX_LIMIT - 1;
      } else {
        assert Expected(t, k) == None;
      }
    }
  }

  lemma FollowSingle<K, D>(held: Option<Visible<K, D>>, events: seq<Event<K, D>>, k: K)
    requires |events| == 1
    ensures FollowAll(held, events, k) == FollowTags(held, events[0], k)
  {
    assert events[1..] == [];
  }

  lemma StepInStep<K, D>(t: Table<K, D>, step: Step<K, D>, cfg: Config<D>, k: K)
    requires Valid(t) && Possible(t, step, cfg)
    ensures var e := Apply(t, step, cfg);
            var right := FollowAll(Expected(t, k), e.events, k) == Expected(e.table, k);
            if Wraps(t, step, cfg, k) then Tagged(t) ==> !right else right
  {
    var e := Apply(t, step, cfg);
    if e.error.None? {
      match step
      case PruneStep(found, now, _, _) => PruneInStep(t, found, now, cfg.column, k);
      case SaveStep(row, env) =>
        FollowSingle(Expected(t, k), e.events, k);
        SaveInStep(t, row, env, cfg, k);
      case RemoveStep(key, _, _) =>
        FollowSingle(Expected(t, k), e.events, k);
        DropExpected(t, {Holder(t, key).value}, {key}, k);
    }
  }

  lemma StepKeepsTagged<K, D>(t: Table<K, D>, step: Step<K, D>, cfg: Config<D>)
    requires Valid(t) && Tagged(t) && Possible(t, step, cfg)
    ensures Valid(Apply(t, step, cfg).table) && Tagged(Apply(t, step, cfg).table)
  {
    StepKeepsValid(t, step, cfg);
    if step.SaveStep? && Apply(t, step, cfg).error.None? { SavePuts(t, step.row, step.env, cfg); }
  }

  /** No step of the run updates the row of `k` at its last index. */
  ghost predicate NeverWraps<K, D>(t: Table<K, D>, steps: seq<Step<K, D>>, cfg: Config<D>, k: K)
    requires Valid(t) && PossibleRun(t, steps, cfg)
    decreases |steps|
  {
    steps == [] ||
    (!Wraps(t, steps[0], cfg, k)
     && (StepKeepsValid(t, steps[0], cfg); NeverWraps(Apply(t, steps[0], cfg).table, steps[1..], cfg, k)))
  }

  /** The router holds exactly what is stored under `k`, at the start and after every step. */
  ghost predicate InStepThroughout<K, D>(held: Option<Visible<K, D>>, t: Table<K, D>, steps: seq<Step<K, D>>,
                                         cfg: Config<D>, k: K)
    requires Valid(t) && PossibleRun(t, steps, cfg)
    decreases |steps|
  {
    && held == Expected(t, k)
    && (steps == [] ||
        (StepKeepsValid(t, steps[0], cfg);
         var e := Apply(t, steps[0], cfg);
         InStepThroughout(FollowAll(held, e.events, k), e.table, steps[1..], cfg, k)))
  }

  /** Fed in order, a router with the tag rules is right after every step if and only if the index never wraps. */
  lemma {:induction false} InStepIff<K, D>(t: Table<K, D>, steps: seq<Step<K, D>>, cfg: Config<D>, k: K)
    requires Valid(t) && Tagged(t) && PossibleRun(t, steps, cfg)
    ensures InStepThroughout(Expected(t, k), t, steps, cfg, k) <==> NeverWraps(t, steps, cfg, k)
    decreases |steps|
  {
    if steps != [] {
      StepKeepsTagged(t, steps[0], cfg);
      StepInStep(t, steps[0], cfg, k);
      var e := Apply(t, steps[0], cfg);
      if FollowAll(Expected(t, k), e.events, k) == Expected(e.table, k) {
        InStepIff(e.table, steps[1..], cfg, k);
      }
    }
  }

  /** So it holds exactly what is stored after any run in which the index does not wrap. */
  lemma {:induction false} RunInStep<K, D>(t: Table<K, D>, steps: seq<Step<K, D>>, cfg: Config<D>, k: K)
    requires Valid(t) && PossibleRun(t, steps, cfg) && NeverWraps(t, steps, cfg, k)
    ensures FollowAll(Expected(t, k), Run(t, steps, cfg).1, k) == Expected(Run(t, steps, cfg).0, k)
    decreases |steps|
  {
    if steps != [] {
      StepKeepsValid(t, steps[0], cfg);
      StepInStep(t, steps[0], cfg, k);
      var e := Apply(t, steps[0], cfg);
      RunInStep(e.table, steps[1..], cfg, k);
      FollowConcat(Expected(t, k), e.events, Run(e.table, steps[1..], cfg).1, k);
    }
  }

  /** Where an index does wrap, the router refuses the update, and would refuse the deletion of that version. */
  lemma WrapStrandsRouter<K, D>(t: Table<K, D>, row: Row<K, D>, env: SaveEnv, cfg: Config<D>, g: string)
    requires Valid(t) && Possible(t, SaveStep(row, env), cfg) && Save(t, row, env, cfg).error.None?
    requires g in t && t[g].key == row.key && t[g].tag.guid != "" && t[g].tag.index == INDEX_LIMIT - 1
    ensures var held, e := Some(Show(t[g])), Save(t, row, env, cfg);
            && FollowTags(held, e.events[0], row.key) == held
            && g in e.table && FollowTags(held, Event(DeleteEvent, Show(e.table[g])), row.key) == held
  {
    assert Holder(t, row.key) == Some(g);
    assert t[g].tag.Increment().index == 0;
  }
}
