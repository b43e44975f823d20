/**
 The route table and its event log, stated once for both kinds of route.

 A stored row is its surrogate guid, its expiry, the natural key it is looked up by, and the
 rest of its columns. HTTP routes and TCP mappings differ only in the types of key and data
 and in which data columns an update overwrites (`Config.merge`).
 */
module RouteTable {
  import opened Common
  import opened ModificationTags

  datatype Row<+K, +D> =
    Row(guid: string, expiresAt: int, key: K, ttl: Option<int>, tag: ModificationTag, data: D)

  /** The database table, by primary key. */
  type Table<K, D> = map<string, Row<K, D>>

  datatype EventType = InvalidEvent | CreateEvent | DeleteEvent | ExpireEvent | UpdateEvent

  /** The columns of a row that its JSON form shows: neither the guid nor the expiry. */
  datatype Visible<+K, +D> = Visible(key: K, ttl: Option<int>, tag: ModificationTag, data: D)

  datatype Event<+K, +D> = Event(kind: EventType, value: Visible<K, D>)

  datatype DbError = DatabaseFailure | DuplicateRows | KeyNotFound | GuidFailure | NilDereference

  /** What one call finds in its surroundings: the clock, two fresh uuids, and which database calls fail. */
  datatype SaveEnv =
    SaveEnv(now: int, guid: Option<string>, tagGuid: Option<string>, findFails: bool, writeFails: bool)

  /** `merge` is the kind's data update; `column` is what the database keeps of an expiry time. */
  datatype Config<!D> = Config(merge: (D, D) -> D, column: int -> int)

  /** The outcome of one operation: the new table, the events emitted, the error returned. */
  datatype Effect<+K, +D> = Effect(table: map<string, Row<K, D>>, events: seq<Event<K, D>>, error: Option<DbError>)

  function Show<K, D>(r: Row<K, D>): (v: Visible<K, D>) {
    Visible(r.key, r.ttl, r.tag, r.data)
  }

  ghost predicate UniqueKeys<K, D>(t: Table<K, D>) {
    forall g, h :: g in t && h in t && t[g].key == t[h].key ==> g == h
  }

  ghost predicate Valid<K, D>(t: Table<K, D>) {
    && (forall g :: g in t ==> t[g].guid == g && g != "" && t[g].ttl.Some?)
    && UniqueKeys(t)
  }

  /** Some row has key `k`. */
  ghost predicate Holds<K, D>(t: Table<K, D>, k: K) {
    exists g :: g in t && t[g].key == k
  }

  /** The guid of a row with key `k`, if any. */
  ghost function Holder<K, D>(t: Table<K, D>, k: K): (r: Option<string>)
    ensures r.Some? ==> r.value in t && t[r.value].key == k
    ensures r.None? ==> forall g :: g in t ==> t[g].key != k
  {
    if Holds(t, k) then
      var g :| g in t && t[g].key == k;
      Some(g)
    else
      None
  }

  /** An update keeps guid and key, bumps the tag, and takes the new ttl if there is one. */
  ghost function Refreshed<K, D>(existing: Row<K, D>, current: Row<K, D>, now: int, cfg: Config<D>): Row<K, D>
    requires existing.ttl.Some?
  {
    var ttl := if current.ttl.Some? then current.ttl else existing.ttl;
    Row(existing.guid, now + ttl.value * SECOND, existing.key, ttl, existing.tag.Increment(),
        cfg.merge(existing.data, current.data))
  }

  /** Upsert by natural key. */
  ghost function Save<K, D>(t: Table<K, D>, r: Row<K, D>, env: SaveEnv, cfg: Config<D>): Effect<K, D>
    requires Valid(t)
  {
    var h := Holder(t, r.key);
    if env.findFails then Effect(t, [], Some(DatabaseFailure))
    else if h.Some? then
      var row := Refreshed(t[h.value], r, env.now, cfg);
      if env.writeFails then Effect(t, [], Some(DatabaseFailure))
      else Effect(t[h.value := row], [Event(UpdateEvent, Show(row))], None)
    else if env.guid.None? then Effect(t, [], Some(GuidFailure))
    else if r.ttl.None? then Effect(t, [], Some(NilDereference))
    else if env.tagGuid.None? then Effect(t, [], Some(GuidFailure))
    else if env.writeFails || env.guid.value in t then Effect(t, [], Some(DatabaseFailure))
    else
      var row := Row(env.guid.value, env.now + r.ttl.value * SECOND, r.key, r.ttl,
                     ModificationTag(env.tagGuid.value, 0), r.data);
      Effect(t[row.guid := row], [Event(CreateEvent, Show(row))], None)
  }

  /** The guid under which an upsert that succeeds leaves its row. */
  ghost function SavedUnder<K, D>(t: Table<K, D>, r: Row<K, D>, env: SaveEnv): string {
    var h := Holder(t, r.key);
    if h.Some? then h.value else if env.guid.Some? then env.guid.value else ""
  }

  /** Delete by natural key. */
  ghost function Remove<K, D>(t: Table<K, D>, k: K, findFails: bool, writeFails: bool): Effect<K, D> {
    var h := Holder(t, k);
    if findFails then Effect(t, [], Some(DatabaseFailure))
    else if h.None? then Effect(t, [], Some(KeyNotFound))
    else if writeFails then Effect(t, [], Some(DatabaseFailure))
    else Effect(t - {h.value}, [Event(DeleteEvent, Show(t[h.value]))], None)
  }

  /** What the pruning query selects: it allows a second for the precision lost in the column. */
  predicate Expired<K, D>(r: Row<K, D>, now: int, column: int -> int) {
    column(r.expiresAt) < now - SECOND
  }

  function GuidsOf<K, D>(found: seq<Row<K, D>>): set<string> {
    set i | 0 <= i < |found| :: found[i].guid
  }

  ghost function KeysOf<K, D>(found: seq<Row<K, D>>): set<K> {
    set i | 0 <= i < |found| :: found[i].key
  }

  /** `found` is an answer of the pruning query, in the order the database chose. */
  ghost predicate Answers<K, D>(found: seq<Row<K, D>>, t: Table<K, D>, now: int, column: int -> int) {
    && (forall i :: 0 <= i < |found| ==>
          found[i].guid in t && t[found[i].guid] == found[i] && Expired(found[i], now, column))
    && (forall g :: g in t && Expired(t[g], now, column) ==> g in GuidsOf(found))
    && (forall i, j :: 0 <= i < j < |found| ==> found[i].guid != found[j].guid)
  }

  /** The list handed to the delete statement: as many empty strings as rows, then the guids. */
  function PaddedGuids<K, D>(found: seq<Row<K, D>>): (r: seq<string>) {
    seq(|found|, _ => "") + seq(|found|, i requires 0 <= i < |found| => found[i].guid)
  }

  function Elements(guids: seq<string>): set<string> {
    set i | 0 <= i < |guids| :: guids[i]
  }

  function ExpireEvents<K, D>(found: seq<Row<K, D>>): (r: seq<Event<K, D>>)
    ensures |r| == |found|
    ensures forall i :: 0 <= i < |r| ==> r[i] == Event(ExpireEvent, Show(found[i]))
  {
    seq(|found|, i requires 0 <= i < |found| => Event(ExpireEvent, Show(found[i])))
  }

  ghost function Prune<K, D>(t: Table<K, D>, found: seq<Row<K, D>>, findFails: bool, writeFails: bool): Effect<K, D> {
    if findFails || writeFails then Effect(t, [], Some(DatabaseFailure))
    else Effect(t - Elements(PaddedGuids(found)), ExpireEvents(found), None)
  }

  // ---------------------------------------------------------------- runs

  datatype Step<K, D> =
    | SaveStep(row: Row<K, D>, env: SaveEnv)
    | RemoveStep(key: K, findFails: bool, writeFails: bool)
    | PruneStep(found: seq<Row<K, D>>, now: int, findFails: bool, writeFails: bool)

  /** What a step may assume of the outside: uuids are not empty, queries answer truthfully. */
  ghost predicate Possible<K, D>(t: Table<K, D>, step: Step<K, D>, cfg: Config<D>) {
    match step
    case SaveStep(_, env) => env.guid != Some("") && env.tagGuid != Some("")
    case RemoveStep(_, _, _) => true
    case PruneStep(found, now, findFails, _) => findFails || Answers(found, t, now, cfg.column)
  }

  ghost function Apply<K, D>(t: Table<K, D>, step: Step<K, D>, cfg: Config<D>): Effect<K, D>
    requires Valid(t)
  {
    match step
    case SaveStep(row, env) => Save(t, row, env, cfg)
    case RemoveStep(key, findFails, writeFails) => Remove(t, key, findFails, writeFails)
    case PruneStep(found, _, findFails, writeFails) => Prune(t, found, findFails, writeFails)
  }

  ghost predicate PossibleRun<K, D>(t: Table<K, D>, steps: seq<Step<K, D>>, cfg: Config<D>)
    requires Valid(t)
    decreases |steps|
  {
    steps == [] ||
    (Possible(t, steps[0], cfg) &&
     (StepKeepsValid(t, steps[0], cfg); PossibleRun(Apply(t, steps[0], cfg).table, steps[1..], cfg)))
  }

  /** The table after a run, and every event it emitted. */
  ghost function Run<K, D>(t: Table<K, D>, steps: seq<Step<K, D>>, cfg: Config<D>): (Table<K, D>, seq<Event<K, D>>)
    requires Valid(t) && PossibleRun(t, steps, cfg)
    decreases |steps|
  {
    if steps == [] then (t, []) else
    StepKeepsValid(t, steps[0], cfg);
    var e := Apply(t, steps[0], cfg);
    var (t', events) := Run(e.table, steps[1..], cfg);
    (t', e.events + events)
  }

  // ---------------------------------------------------------------- one key, one row

  /** The padding deletes nothing: no stored guid is empty. */
  lemma PaddingIsHarmless<K, D>(t: Table<K, D>, found: seq<Row<K, D>>)
    requires Valid(t)
    ensures t - Elements(PaddedGuids(found)) == t - GuidsOf(found)
  {
    var n := |found|;
    forall g | g in t
      ensures g in Elements(PaddedGuids(found)) <==> g in GuidsOf(found)
    {
      if g in GuidsOf(found) {
        var i :| 0 <= i < n && found[i].guid == g;
        assert PaddedGuids(found)[n + i] == g;
      }
      if g in Elements(PaddedGuids(found)) {
        var j :| 0 <= j < |PaddedGuids(found)| && PaddedGuids(found)[j] == g;
        assert n <= j;
        assert found[j - n].guid == g;
      }
    }
  }

  /** An upsert of a stored key that meets no failure refreshes its row. */
  lemma SaveUpdates<K, D>(t: Table<K, D>, r: Row<K, D>, env: SaveEnv, cfg: Config<D>, g: string, row: Row<K, D>)
    requires Valid(t) && g in t && t[g].key == r.key && !env.findFails && !env.writeFails
    requires row == Refreshed(t[g], r, env.now, cfg)
    ensures Save(t, r, env, cfg) == Effect(t[g := row], [Event(UpdateEvent, Show(row))], None)
    ensures Valid(t[g := row])
  {
    assert Holder(t, r.key) == Some(g);
  }

  /** An upsert of a key that is not stored creates its row. */
  lemma SaveCreates<K, D>(t: Table<K, D>, r: Row<K, D>, env: SaveEnv, cfg: Config<D>, row: Row<K, D>)
    requires Valid(t) && Holder(t, r.key).None? && !env.findFails && !env.writeFails && r.ttl.Some?
    requires env.guid.Some? && env.tagGuid.Some? && env.guid.value != "" && env.guid.value !in t
    requires row == r.(guid := env.guid.value, expiresAt := env.now + r.ttl.value * SECOND,
                       tag := ModificationTag(env.tagGuid.value, 0))
    ensures Save(t, r, env, cfg) == Effect(t[row.guid := row], [Event(CreateEvent, Show(row))], None)
    ensures Valid(t[row.guid := row])
  {
  }

  /** A successful upsert writes one row, new or of the same key, dates it, and announces it. */
  lemma SavePuts<K, D>(t: Table<K, D>, r: Row<K, D>, env: SaveEnv, cfg: Config<D>)
    requires Valid(t) && Save(t, r, env, cfg).error.None?
    ensures var e, g := Save(t, r, env, cfg), SavedUnder(t, r, env);
            && g in e.table && e.table == t[g := e.table[g]]
            && e.table[g].guid == g && e.table[g].key == r.key
            && e.table[g].ttl == (if r.ttl.None? && g in t then t[g].ttl else r.ttl) && e.table[g].ttl.Some?
            && e.table[g].expiresAt == env.now + e.table[g].ttl.value * SECOND
            && e.events == [Event(if g in t then UpdateEvent else CreateEvent, Show(e.table[g]))]
    ensures var e, g := Save(t, r, env, cfg), SavedUnder(t, r, env);
            if g in t then t[g].key == r.key && e.table[g].tag == t[g].tag.Increment()
            else !Holds(t, r.key) && env.guid == Some(g) && env.tagGuid.Some?
                 && e.table[g].tag == ModificationTag(env.tagGuid.value, 0)
  {
  }

  /** The query finds a row by guid exactly when it finds its key. */
  lemma FoundByKey<K, D>(t: Table<K, D>, found: seq<Row<K, D>>, now: int, column: int -> int)
    requires Valid(t) && Answers(found, t, now, column)
    ensures forall g :: g in t ==> (g in GuidsOf(found) <==> t[g].key in KeysOf(found))
  {
    forall g | g in t ensures g in GuidsOf(found) <==> t[g].key in KeysOf(found) {
      if g in GuidsOf(found) {
        var i :| 0 <= i < |found| && found[i].guid == g;
        assert found[i].key == t[g].key;
      }
      if t[g].key in KeysOf(found) {
        var i :| 0 <= i < |found| && found[i].key == t[g].key;
        assert found[i].guid == g;
      }
    }
  }

  /** Every operation keeps at most one row per key, and never changes the key of a row it keeps. */
  lemma StepKeepsValid<K, D>(t: Table<K, D>, step: Step<K, D>, cfg: Config<D>)
    requires Valid(t) && Possible(t, step, cfg)
    ensures Valid(Apply(t, step, cfg).table)
    ensures forall g :: g in t && g in Apply(t, step, cfg).table ==> Apply(t, step, cfg).table[g].key == t[g].key
  {
  }
}
