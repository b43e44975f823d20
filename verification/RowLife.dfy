/**
 The versions of one row between its creation and its removal, and what a router that follows
 the modification tags makes of them when events reach it late, twice or out of order.
 */
module RowLife {
  import opened Common
  import opened ModificationTags
  import opened RouteTable

  /** The upserts of key `k` since it was last created, oldest first. */
  ghost function NextLife<K, D>(life: seq<Visible<K, D>>, e: Event<K, D>, k: K): seq<Visible<K, D>> {
    if e.value.key != k then life else
    match e.kind
    case CreateEvent => [e.value]
    case UpdateEvent => life + [e.value]
    case DeleteEvent | ExpireEvent => []
    case InvalidEvent => life
  }

  ghost function Life<K, D>(life: seq<Visible<K, D>>, events: seq<Event<K, D>>, k: K): seq<Visible<K, D>>
    decreases |events|
  {
    if events == [] then life else Life(NextLife(life, events[0], k), events[1..], k)
  }

  /** The i-th version carries index i (modulo 2^32), all under one non-empty tag guid. */
  ghost predicate Numbered<K, D>(life: seq<Visible<K, D>>, guid: string) {
    guid != "" && forall i :: 0 <= i < |life| ==> life[i].tag == ModificationTag(guid, i % INDEX_LIMIT)
  }

  /** `life` ends in what the table stores under `k`; a key that is not stored has no life. */
  ghost predicate Lives<K, D>(life: seq<Visible<K, D>>, t: Table<K, D>, k: K) {
    var h := Holder(t, k);
    if h.None? then life == []
    else life != [] && life[|life| - 1] == Show(t[h.value]) && Numbered(life, t[h.value].tag.guid)
  }

  lemma {:induction false} LifeConcat<K, D>(life: seq<Visible<K, D>>, a: seq<Event<K, D>>, b: seq<Event<K, D>>, k: K)
    ensures Life(life, a + b, k) == Life(Life(life, a, k), b, k)
    decreases |a|
  {
    if a == [] {
      assert a + b == b;
    } else {
      assert (a + b)[1..] == a[1..] + b;
      LifeConcat(NextLife(life, a[0], k), a[1..], b, k);
    }
  }

  lemma {:induction false} LifeOfExpiries<K, D>(life: seq<Visible<K, D>>, found: seq<Row<K, D>>, k: K)
    ensures Life(life, ExpireEvents(found), k) == if k in KeysOf(found) then [] else life
    decreases |found|
  {
    if found != [] {
      var rest := found[1..];
      assert ExpireEvents(found)[1..] == ExpireEvents(rest);
      LifeOfExpiries(NextLife(life, ExpireEvents(found)[0], k), rest, k);
      assert k in KeysOf(found) <==> k == found[0].key || k in KeysOf(rest) by {
        if k in KeysOf(found) {
          var i :| 0 <= i < |found| && found[i].key == k;
          assert i > 0 ==> rest[i - 1].key == k;
        }
        if k in KeysOf(rest) {
          var i :| 0 <= i < |rest| && rest[i].key == k;
          assert found[i + 1].key == k;
        }
      }
    }
  }

  lemma PruneLives<K, D>(life: seq<Visible<K, D>>, t: Table<K, D>, found: seq<Row<K, D>>, now: int,
                         column: int -> int, k: K)
    requires Valid(t) && Answers(found, t, now, column) && Lives(life, t, k)
    ensures Lives(Life(life, ExpireEvents(found), k), Prune(t, found, false, false).table, k)
  {
    LifeOfExpiries(life, found, k);
    PaddingIsHarmless(t, found);
    FoundByKey(t, found, now, column);
    DropLives(life, t, GuidsOf(found), KeysOf(found), k);
  }

  lemma DropLives<K, D>(life: seq<Visible<K, D>>, t: Table<K, D>, guids: set<string>, keys: set<K>, k: K)
    requires Valid(t) && Lives(life, t, k)
    requires forall g :: g in t ==> (g in guids <==> t[g].key in keys)
    ensures Lives(if k in keys then [] else life, t - guids, k)
  {
    var t' := t - guids;
    if k !in keys && Holder(t, k).Some? {
      assert Holder(t, k).value in t';
      assert Holder(t', k) == Holder(t, k);
    }
  }

  lemma PutHolder<K, D>(t: Table<K, D>, row: Row<K, D>, k: K)
    requires Valid(t) && Valid(t[row.guid := row])
    requires row.guid in t ==> t[row.guid].key == row.key
    ensures Holder(t[row.guid := row], k) == if k == row.key then Some(row.guid) else Holder(t, k)
  {
    var t' := t[row.guid := row];
    if k == row.key {
      assert row.guid in t' && t'[row.guid].key == k;
    } else if Holder(t, k).Some? {
      assert Holder(t, k).value in t';
    }
  }

  lemma NumberedAppend<K, D>(life: seq<Visible<K, D>>, guid: string, v: Visible<K, D>)
    requires Numbered(life, guid) && life != [] && v.tag == life[|life| - 1].tag.Increment()
    ensures Numbered(life + [v], guid)
  {
    var n := |life|;
    assert n % INDEX_LIMIT == ((n - 1) % INDEX_LIMIT + 1) % INDEX_LIMIT;
  }

  lemma UpdateLives<K, D>(life: seq<Visible<K, D>>, t: Table<K, D>, row: Row<K, D>, k: K)
    requires Valid(t) && Valid(t[row.guid := row]) && Lives(life, t, k)
    requires row.guid in t && row.key == t[row.guid].key && row.tag == t[row.guid].tag.Increment()
    ensures Lives(NextLife(life, Event(UpdateEvent, Show(row)), k), t[row.guid := row], k)
  {
    PutHolder(t, row, k);
    if k == row.key {
      assert Holder(t, k) == Some(row.guid);
      NumberedAppend(life, row.tag.guid, Show(row));
    }
  }

  lemma CreateLives<K, D>(life: seq<Visible<K, D>>, t: Table<K, D>, row: Row<K, D>, k: K)
    requires Valid(t) && Valid(t[row.guid := row]) && Lives(life, t, k)
    requires row.guid !in t && row.tag.guid != "" && row.tag.index == 0
    ensures Lives(NextLife(life, Event(CreateEvent, Show(row)), k), t[row.guid := row], k)
  {
    PutHolder(t, row, k);
  }

  lemma SaveLives<K, D>(life: seq<Visible<K, D>>, t: Table<K, D>, row: Row<K, D>, env: SaveEnv, cfg: Config<D>, k: K)
    requires Valid(t) && Possible(t, SaveStep(row, env), cfg) && Lives(life, t, k)
    requires Save(t, row, env, cfg).error.None?
    ensures Lives(NextLife(life, Save(t, row, env, cfg).events[0], k), Save(t, row, env, cfg).table, k)
  {
    var e := Save(t, row, env, cfg);
    StepKeepsValid(t, SaveStep(row, env), cfg);
    if Holder(t, row.key).Some? {
      UpdateLives(life, t, e.table[Holder(t, row.key).value], k);
    } else {
      CreateLives(life, t, e.table[env.guid.value], k);
    }
  }

  lemma StepLives<K, D>(life: seq<Visible<K, D>>, t: Table<K, D>, step: Step<K, D>, cfg: Config<D>, k: K)
    requires Valid(t) && Possible(t, step, cfg) && Lives(life, t, k)
    ensures Lives(Life(life, Apply(t, step, cfg).events, k), Apply(t, step, cfg).table, k)
  {
    var e := Apply(t, step, cfg);
    if e.error.None? {
      match step
      case PruneStep(found, now, _, _) => PruneLives(life, t, found, now, cfg.column, k);
      case SaveStep(row, env) =>
        assert e.events[1..] == [];
        assert Life(life, e.events, k) == NextLife(life, e.events[0], k);
        SaveLives(life, t, row, env, cfg, k);
      case RemoveStep(key, _, _) =>
        assert e.events[1..] == [];
        assert Life(life, e.events, k) == NextLife(life, e.events[0], k);
        DropLives(life, t, {Holder(t, key).value}, {key}, k);
    }
  }

  /** Over any run the upserts of a stored key are numbered from 0 and end in the stored row. */
  lemma {:induction false} RunLives<K, D>(life: seq<Visible<K, D>>, t: Table<K, D>, steps: seq<Step<K, D>>,
                                          cfg: Config<D>, k: K)
    requires Valid(t) && PossibleRun(t, steps, cfg) && Lives(life, t, k)
    ensures Lives(Life(life, Run(t, steps, cfg).1, k), Run(t, steps, cfg).0, k)
    decreases |steps|
  {
    if steps != [] {
      StepKeepsValid(t, steps[0], cfg);
      StepLives(life, t, steps[0], cfg, k);
      var e := Apply(t, steps[0], cfg);
      RunLives(Life(life, e.events, k), e.table, steps[1..], cfg, k);
      LifeConcat(life, e.events, Run(e.table, steps[1..], cfg).1, k);
    }
  }

  // ---------------------------------------------------------------- routers

  /** Later versions succeed earlier ones exactly as long as their indices have not wrapped between them. */
  lemma SucceedsInOrder<K, D>(life: seq<Visible<K, D>>, guid: string, i: nat, j: nat)
    requires Numbered(life, guid) && i < j < |life|
    ensures SucceededBy(Some(life[i].tag), life[j].tag) <==> i % INDEX_LIMIT < j % INDEX_LIMIT
    ensures j < INDEX_LIMIT ==> SucceededBy(Some(life[i].tag), life[j].tag)
  {
  }

  /** A router applies an upsert only when its own tag is succeeded by the event's. */
  ghost function Consider<K, D>(held: Option<Visible<K, D>>, v: Visible<K, D>): Option<Visible<K, D>> {
    if SucceededBy(if held.Some? then Some(held.value.tag) else None, v.tag) then Some(v) else held
  }

  ghost function ConsiderAll<K, D>(held: Option<Visible<K, D>>, delivered: seq<Visible<K, D>>): Option<Visible<K, D>> {
    if delivered == [] then held
    else Consider(ConsiderAll(held, delivered[..|delivered| - 1]), delivered[|delivered| - 1])
  }

  /** In order of emission a router follows a row for exactly 2^32 versions and then stays behind for ever. */
  lemma {:induction false} InOrderDelivery<K, D>(life: seq<Visible<K, D>>, guid: string)
    requires Numbered(life, guid) && life != []
    ensures ConsiderAll(None, life) == Some(life[if |life| <= INDEX_LIMIT then |life| - 1 else INDEX_LIMIT - 1])
  {
    var before := life[..|life| - 1];
    if before != [] {
      InOrderDelivery(before, guid);
    } else {
      assert ConsiderAll(None, before) == None;
    }
  }

  /** Whatever was delivered, the router holds a version at least as new as any of it. */
  lemma {:induction false} HoldsNewest<K, D>(life: seq<Visible<K, D>>, guid: string, delivered: seq<Visible<K, D>>)
    requires Numbered(life, guid) && |life| <= INDEX_LIMIT
    requires forall v :: v in delivered ==> v in life
    requires delivered != []
    ensures var r := ConsiderAll(None, delivered);
            r.Some? && r.value in delivered && forall v :: v in delivered ==> v.tag.index <= r.value.tag.index
  {
    var before, last := delivered[..|delivered| - 1], delivered[|delivered| - 1];
    assert delivered == before + [last];
    if before == [] {
      assert ConsiderAll(None, before) == None;
    } else {
      HoldsNewest(life, guid, before);
    }
  }

  /** What the table shows under a key it holds. */
  ghost function Current<K, D>(t: Table<K, D>, k: K): Visible<K, D>
    requires Holds(t, k)
  {
    Show(t[Holder(t, k).value])
  }

  lemma DeliveredLife<K, D>(life: seq<Visible<K, D>>, t: Table<K, D>, k: K, delivered: seq<Visible<K, D>>)
    requires Holds(t, k) && Lives(life, t, k) && |life| <= INDEX_LIMIT
    requires forall v :: v in delivered ==> v in life
    requires Current(t, k) in delivered
    ensures ConsiderAll(None, delivered) == Some(Current(t, k))
  {
    HoldsNewest(life, Current(t, k).tag.guid, delivered);
    var held := ConsiderAll(None, delivered).value;
    var i :| 0 <= i < |life| && life[i] == held;
    assert life[|life| - 1].tag.index == |life| - 1;
  }

  /**
   After any run from an empty table, a router that has been sent the versions of a stored row in
   any order, any number of times, holds exactly what the table stores, provided the row was
   updated fewer than 2^32 times and its last version was among those sent.
   */
  lemma AnyDelivery<K, D>(steps: seq<Step<K, D>>, cfg: Config<D>, k: K, delivered: seq<Visible<K, D>>)
    requires PossibleRun(map[], steps, cfg)
    requires Holds(Run(map[], steps, cfg).0, k)
    requires |Life([], Run(map[], steps, cfg).1, k)| <= INDEX_LIMIT
    requires forall v :: v in delivered ==> v in Life([], Run(map[], steps, cfg).1, k)
    requires Current(Run(map[], steps, cfg).0, k) in delivered
    ensures ConsiderAll(None, delivered) == Some(Current(Run(map[], steps, cfg).0, k))
  {
    RunLives([], map[], steps, cfg, k);
    DeliveredLife(Life([], Run(map[], steps, cfg).1, k), Run(map[], steps, cfg).0, k, delivered);
  }
}
