/**
 Saves as they really run: a look-up and then a write, with other saves and removals in between, on a table
 whose unique index, if it has one, is the database's only guard. The look-up compares the key; an index relates
 fewer rows than the key does when one of its columns is NULL, or when it has a column more.
 */
module SaveRaces {
  import opened Common
  import opened ModificationTags
  import opened RouteTable
  import opened Routes

  /** Whether the unique index holds two rows to be the same. */
  type Index<!K, !D> = (K, D, K, D) -> bool

  /** The index relates only rows of one key, and does not look at what updates change. */
  ghost predicate IndexOk<K(!new), D(!new)>(index: Index<K, D>, cfg: Config<D>) {
    && (forall k, d, k', d' :: index(k, d, k', d') ==> k == k' && index(k', d', k, d))
    && (forall k, d, d', k2, d2 :: index(k, cfg.merge(d, d'), k2, d2) == index(k, d, k2, d2))
    && (forall k, d, d', k2, d2 :: index(k2, d2, k, cfg.merge(d, d')) == index(k2, d2, k, d))
  }

  /**
   A save past its look-up holds the row it is going to write: a new one, or its copy of the stored one,
   refreshed.
   */
  datatype Plan<K, D> = Plan(row: Row<K, D>, isNew: bool)

  /** `issued` holds every guid given to a new row; `log` everything emitted. */
  datatype Store<K, D> =
    Store(table: Table<K, D>, calls: map<nat, Plan<K, D>>, issued: set<string>, log: seq<Event<K, D>>)

  datatype Action<K, D> =
    | LookUp(id: nat, row: Row<K, D>, env: SaveEnv)
    | Write(id: nat, fails: bool)
    | Remove(guid: string)

  /** Two rows have this key. */
  ghost predicate Twice<K, D>(t: Table<K, D>, k: K) {
    exists g, h :: g in t && h in t && g != h && t[g].key == k && t[h].key == k
  }

  /** A row other than `g` has this key. */
  ghost predicate OtherHas<K, D>(t: Table<K, D>, k: K, g: string) {
    exists h :: h in t && h != g && t[h].key == k
  }

  /** Rows are stored under their guids, with a ttl, and no two of them are the same to the index. */
  ghost predicate TableOk<K, D>(t: Table<K, D>, index: Index<K, D>) {
    && Rooted(t)
    && (forall g, h :: g in t && h in t && g != h ==> !index(t[g].key, t[g].data, t[h].key, t[h].data))
  }

  ghost predicate Rooted<K, D>(t: Table<K, D>) {
    forall g :: g in t ==> t[g].guid == g && g != "" && t[g].ttl.Some? && t[g].tag.guid != ""
  }

  predicate RowOk<K, D>(row: Row<K, D>) {
    row.guid != "" && row.ttl.Some? && row.tag.guid != ""
  }

  /** Versions of one row have the key and the tag guid in common. */
  ghost predicate Kin<K, D>(a: Row<K, D>, b: Row<K, D>) {
    a.guid == b.guid ==> a.key == b.key && a.tag.guid == b.tag.guid
  }

  ghost predicate CallsOk<K, D>(s: Store<K, D>) {
    && s.table.Keys <= s.issued
    && (forall id :: id in s.calls ==> RowOk(s.calls[id].row) && s.calls[id].row.guid in s.issued)
    && (forall id, g :: id in s.calls && g in s.table ==> Kin(s.calls[id].row, s.table[g]))
    && (forall id, j :: id in s.calls && j in s.calls ==> Kin(s.calls[id].row, s.calls[j].row))
  }

  ghost predicate Inv<K, D>(s: Store<K, D>, index: Index<K, D>) {
    TableOk(s.table, index) && CallsOk(s)
  }

  /** What a look-up leads to: nothing on duplicates or failures, else the row to write. */
  ghost function Planned<K, D>(t: Table<K, D>, row: Row<K, D>, env: SaveEnv, cfg: Config<D>): Option<Plan<K, D>>
    requires Rooted(t)
  {
    var h := Holder(t, row.key);
    if env.findFails || Twice(t, row.key) then None
    else if h.Some? then Some(Plan(Refreshed(t[h.value], row, env.now, cfg), false))
    else if env.guid.None? || env.tagGuid.None? || row.ttl.None? then None
    else Some(Plan(Row(env.guid.value, env.now + row.ttl.value * SECOND, row.key, row.ttl,
                       ModificationTag(env.tagGuid.value, 0), row.data), true))
  }

  /** A new row is refused if its guid is taken, any row if another one is the same to the index. */
  ghost predicate Refused<K, D>(t: Table<K, D>, plan: Plan<K, D>, index: Index<K, D>) {
    || (plan.isNew && plan.row.guid in t)
    || exists g :: g in t && g != plan.row.guid && index(t[g].key, t[g].data, plan.row.key, plan.row.data)
  }

  /** A look-up brings uuids: the guid of a new row was never issued before. */
  ghost predicate Enabled<K, D>(s: Store<K, D>, a: Action<K, D>) {
    match a
    case LookUp(id, _, env) =>
      id !in s.calls && env.tagGuid != Some("") && env.guid != Some("")
      && (env.guid.Some? ==> env.guid.value !in s.issued)
    case Write(id, _) => id in s.calls
    case Remove(_) => true
  }

  /** The write takes effect. */
  ghost predicate Lands<K, D>(s: Store<K, D>, a: Action<K, D>, index: Index<K, D>) {
    a.Write? && a.id in s.calls && !a.fails && !Refused(s.table, s.calls[a.id], index)
  }

  /** The copy of a stored row is written by primary key, and inserted again if it is not there any more. */
  ghost function Act<K, D>(s: Store<K, D>, a: Action<K, D>, index: Index<K, D>, cfg: Config<D>): Store<K, D>
    requires Inv(s, index) && Enabled(s, a)
  {
    match a
    case LookUp(id, row, env) =>
      var plan := Planned(s.table, row, env, cfg);
      if plan.None? then s
      else s.(calls := s.calls[id := plan.value], issued := s.issued + {plan.value.row.guid})
    case Write(id, _) =>
      var s' := s.(calls := s.calls - {id});
      if !Lands(s, a, index) then s'
      else
        var Plan(row, isNew) := s.calls[id];
        s'.(table := s.table[row.guid := row],
            log := s.log + [Event(if isNew then CreateEvent else UpdateEvent, Show(row))])
    case Remove(g) =>
      if g !in s.table then s
      else s.(table := s.table - {g}, log := s.log + [Event(DeleteEvent, Show(s.table[g]))])
  }

  /** A plan is for a row nobody has heard of, or for the stored row of its key. */
  lemma {:induction false} PlannedHow<K, D>(t: Table<K, D>, row: Row<K, D>, env: SaveEnv, cfg: Config<D>)
    requires Rooted(t)
    requires Planned(t, row, env, cfg).Some? && env.tagGuid != Some("") && env.guid != Some("")
    ensures var plan := Planned(t, row, env, cfg).value;
            && plan.row.key == row.key && RowOk(plan.row) && !OtherHas(t, plan.row.key, plan.row.guid)
            && if plan.isNew then env.guid == Some(plan.row.guid)
               else plan.row.guid in t && Kin(plan.row, t[plan.row.guid])
                    && plan.row.tag == t[plan.row.guid].tag.Increment()
  {
  }

  lemma {:induction false} LookUpKeepsCalls<K, D>(s: Store<K, D>, a: Action<K, D>, index: Index<K, D>, cfg: Config<D>)
    requires Inv(s, index) && Enabled(s, a) && a.LookUp?
    ensures CallsOk(Act(s, a, index, cfg))
  {
    if Planned(s.table, a.row, a.env, cfg).Some? {
      PlannedHow(s.table, a.row, a.env, cfg);
      var s' := Act(s, a, index, cfg);
      var plan := s'.calls[a.id];
      forall g | g in s.table ensures Kin(plan.row, s.table[g]) {}
      forall j | j in s.calls ensures Kin(plan.row, s.calls[j].row) && Kin(s.calls[j].row, plan.row) {
        if !plan.isNew { assert Kin(s.calls[j].row, s.table[plan.row.guid]); }
      }
    }
  }

  lemma {:induction false} ActKeepsInv<K(!new), D(!new)>(s: Store<K, D>, a: Action<K, D>, index: Index<K, D>,
                                         cfg: Config<D>)
    requires IndexOk(index, cfg) && Inv(s, index) && Enabled(s, a)
    ensures Inv(Act(s, a, index, cfg), index)
  {
    if a.LookUp? { LookUpKeepsCalls(s, a, index, cfg); }
  }

  // ---------------------------------------------------------------- histories

  ghost predicate History<K(!new), D(!new)>(h: seq<Action<K, D>>, index: Index<K, D>, cfg: Config<D>)
    requires IndexOk(index, cfg)
    decreases |h|, 0
  {
    h == [] || (History(h[..|h| - 1], index, cfg) && Enabled(At(h[..|h| - 1], index, cfg), h[|h| - 1]))
  }

  /** The store after a history from an empty one; the index holds in all of them. */
  ghost function At<K(!new), D(!new)>(h: seq<Action<K, D>>, index: Index<K, D>, cfg: Config<D>): (s: Store<K, D>)
    requires IndexOk(index, cfg) && History(h, index, cfg)
    ensures Inv(s, index)
    decreases |h|, 1
  {
    if h == [] then Store(map[], map[], {}, []) else
    ActKeepsInv(At(h[..|h| - 1], index, cfg), h[|h| - 1], index, cfg);
    Act(At(h[..|h| - 1], index, cfg), h[|h| - 1], index, cfg)
  }

  /** The write lands beside another row of its key, which the index does not take for the same. */
  ghost predicate Clash<K, D>(s: Store<K, D>, a: Action<K, D>, index: Index<K, D>) {
    Lands(s, a, index) && OtherHas(s.table, s.calls[a.id].row.key, s.calls[a.id].row.guid)
  }

  ghost predicate NoClash<K(!new), D(!new)>(h: seq<Action<K, D>>, index: Index<K, D>, cfg: Config<D>)
    requires IndexOk(index, cfg) && History(h, index, cfg)
    decreases |h|
  {
    h == [] || (NoClash(h[..|h| - 1], index, cfg) && !Clash(At(h[..|h| - 1], index, cfg), h[|h| - 1], index))
  }

  /** No key has two rows, now or at any earlier point. */
  ghost predicate UniqueThroughout<K(!new), D(!new)>(h: seq<Action<K, D>>, index: Index<K, D>, cfg: Config<D>)
    requires IndexOk(index, cfg) && History(h, index, cfg)
    decreases |h|
  {
    UniqueKeys(At(h, index, cfg).table) && (h == [] || UniqueThroughout(h[..|h| - 1], index, cfg))
  }

  // ---------------------------------------------------------------- when two rows of one key arise

  lemma {:induction false} StepUnique<K(!new), D(!new)>(s: Store<K, D>, a: Action<K, D>, index: Index<K, D>,
                                        cfg: Config<D>)
    requires IndexOk(index, cfg) && Inv(s, index) && Enabled(s, a) && UniqueKeys(s.table)
    ensures UniqueKeys(Act(s, a, index, cfg).table) <==> !Clash(s, a, index)
  {
    var t' := Act(s, a, index, cfg).table;
    if Clash(s, a, index) {
      var row := s.calls[a.id].row;
      var h :| h in s.table && h != row.guid && s.table[h].key == row.key;
      assert h in t' && row.guid in t' && t'[h].key == t'[row.guid].key;
    }
  }

  /** In every interleaving keys stay unique exactly as long as no write lands beside another row of its key. */
  lemma {:induction false} UniqueIff<K(!new), D(!new)>(h: seq<Action<K, D>>, index: Index<K, D>, cfg: Config<D>)
    requires IndexOk(index, cfg) && History(h, index, cfg)
    ensures UniqueThroughout(h, index, cfg) <==> NoClash(h, index, cfg)
    decreases |h|
  {
    if h != [] {
      var before := h[..|h| - 1];
      UniqueIff(before, index, cfg);
      if UniqueThroughout(before, index, cfg) {
        assert UniqueKeys(At(before, index, cfg).table);
        StepUnique(At(before, index, cfg), h[|h| - 1], index, cfg);
      }
    }
  }

  // ---------------------------------------------------------------- which calls clash

  lemma {:induction false} StepBrings<K(!new), D(!new)>(s: Store<K, D>, a: Action<K, D>, index: Index<K, D>,
                                        cfg: Config<D>, k: K,
                     g: string)
    requires IndexOk(index, cfg) && Inv(s, index) && Enabled(s, a)
    requires !OtherHas(s.table, k, g) && OtherHas(Act(s, a, index, cfg).table, k, g)
    ensures Lands(s, a, index) && s.calls[a.id].row.key == k && s.calls[a.id].row.guid != g
  {
    var t' := Act(s, a, index, cfg).table;
    var h :| h in t' && h != g && t'[h].key == k;
    assert !(h in s.table && s.table[h].key == k);
  }

  /** At `j` another save of the same key wrote another row. */
  ghost predicate Overlaps<K(!new), D(!new)>(h: seq<Action<K, D>>, index: Index<K, D>, cfg: Config<D>, id: nat, j: nat)
    requires IndexOk(index, cfg) && History(h, index, cfg) && id in At(h, index, cfg).calls
  {
    var mine := At(h, index, cfg).calls[id].row;
    && j < |h| && History(h[..j], index, cfg) && Lands(At(h[..j], index, cfg), h[j], index) && h[j].id != id
    && var other := At(h[..j], index, cfg).calls[h[j].id].row;
       other.key == mine.key && other.guid != mine.guid
  }

  /** The look-up of the call was at `i`, and it has been under way since. */
  ghost predicate LookedUpAt<K, D>(h: seq<Action<K, D>>, id: nat, i: nat) {
    i < |h| && h[i].LookUp? && h[i].id == id
    && forall k :: i < k < |h| && !h[k].Remove? ==> h[k].id != id
  }

  lemma {:induction false} StillPlanned<K(!new), D(!new)>(s: Store<K, D>, a: Action<K, D>, index: Index<K, D>,
                                          cfg: Config<D>, id: nat)
    requires IndexOk(index, cfg) && Inv(s, index) && Enabled(s, a)
    requires id in Act(s, a, index, cfg).calls && !(a.LookUp? && a.id == id)
    ensures id in s.calls && s.calls[id] == Act(s, a, index, cfg).calls[id] && (a.Write? ==> a.id != id)
  {
  }

  lemma {:induction false} LaterLookedUp<K, D>(h: seq<Action<K, D>>, id: nat, i: nat)
    requires h != [] && LookedUpAt(h[..|h| - 1], id, i) && (h[|h| - 1].Remove? || h[|h| - 1].id != id)
    ensures LookedUpAt(h, id, i)
  {
    var before := h[..|h| - 1];
    assert h[i] == before[i];
    forall k | i < k < |h| && !h[k].Remove? ensures h[k].id != id {
      if k < |before| { assert h[k] == before[k]; }
    }
  }

  lemma {:induction false} PlannedAt<K(!new), D(!new)>(h: seq<Action<K, D>>, index: Index<K, D>, cfg: Config<D>,
                                       id: nat)
    returns (i: nat)
    requires IndexOk(index, cfg) && History(h, index, cfg) && id in At(h, index, cfg).calls
    ensures LookedUpAt(h, id, i)
    decreases |h|
  {
    var n := |h| - 1;
    var before, a := h[..n], h[n];
    if a.LookUp? && a.id == id {
      i := n;
    } else {
      StillPlanned(At(before, index, cfg), a, index, cfg, id);
      i := PlannedAt(before, index, cfg, id);
      LaterLookedUp(h, id, i);
    }
  }

  lemma {:induction false} LaterOverlaps<K(!new), D(!new)>(h: seq<Action<K, D>>, index: Index<K, D>, cfg: Config<D>,
                                           id: nat, j: nat)
    requires IndexOk(index, cfg) && h != [] && History(h, index, cfg) && id in At(h, index, cfg).calls
    requires id in At(h[..|h| - 1], index, cfg).calls && Overlaps(h[..|h| - 1], index, cfg, id, j)
    requires At(h[..|h| - 1], index, cfg).calls[id] == At(h, index, cfg).calls[id]
    ensures Overlaps(h, index, cfg, id, j)
  {
    var before := h[..|h| - 1];
    assert h[j] == before[j] && h[..j] == before[..j];
  }

  /**
   A save that finds another row of its key stored when it comes to write was overtaken: between its look-up and
   its write another save of that key wrote another row.
   */
  lemma {:induction false} Overtaken<K(!new), D(!new)>(h: seq<Action<K, D>>, index: Index<K, D>, cfg: Config<D>,
                                       id: nat)
    returns (i: nat, j: nat)
    requires IndexOk(index, cfg) && History(h, index, cfg) && id in At(h, index, cfg).calls
    requires var row := At(h, index, cfg).calls[id].row; OtherHas(At(h, index, cfg).table, row.key, row.guid)
    ensures i < j && LookedUpAt(h, id, i) && Overlaps(h, index, cfg, id, j)
    decreases |h|
  {
    var before, a := h[..|h| - 1], h[|h| - 1];
    var s := At(before, index, cfg);
    if a.LookUp? && a.id == id {
      PlannedHow(s.table, a.row, a.env, cfg);
    } else {
      StillPlanned(s, a, index, cfg, id);
      var row := s.calls[id].row;
      if OtherHas(s.table, row.key, row.guid) {
        i, j := Overtaken(before, index, cfg, id);
        LaterOverlaps(h, index, cfg, id, j);
      } else {
        StepBrings(s, a, index, cfg, row.key, row.guid);
        i := PlannedAt(before, index, cfg, id);
        j := |before|;
      }
      LaterLookedUp(h, id, i);
    }
  }

  // ---------------------------------------------------------------- which rows can collide

  ghost predicate BothStored<K(!new), D(!new)>(h: seq<Action<K, D>>, index: Index<K, D>, cfg: Config<D>, k: K, d: D,
                               d': D)
    requires IndexOk(index, cfg)
  {
    History(h, index, cfg) &&
    var t := At(h, index, cfg).table;
    exists g, g' :: g in t && g' in t && g != g' && t[g].key == k == t[g'].key && t[g].data == d && t[g'].data == d'
  }

  lemma {:induction false} Extended<K(!new), D(!new)>(h: seq<Action<K, D>>, index: Index<K, D>, cfg: Config<D>,
                                      a: Action<K, D>)
    requires IndexOk(index, cfg) && History(h, index, cfg) && Enabled(At(h, index, cfg), a)
    ensures History(h + [a], index, cfg) && At(h + [a], index, cfg) == Act(At(h, index, cfg), a, index, cfg)
  {
    assert (h + [a])[..|h + [a]| - 1] == h;
  }

  function RequestOf<K, D>(k: K, d: D): Row<K, D> {
    Row("", 0, k, Some(1), ModificationTag("", 0), d)
  }

  function NewRow<K, D>(k: K, d: D, guid: string): Row<K, D> {
    Row(guid, SECOND, k, Some(1), ModificationTag(guid, 0), d)
  }

  /** Two saves of one key both look it up before either writes. */
  lemma {:induction false} BothLookedUp<K(!new), D(!new)>(index: Index<K, D>, cfg: Config<D>, k: K, d: D, d': D)
    returns (h: seq<Action<K, D>>)
    requires IndexOk(index, cfg)
    ensures History(h, index, cfg)
    ensures At(h, index, cfg) ==
            Store(map[], map[0 := Plan(NewRow(k, d, "a"), true), 1 := Plan(NewRow(k, d', "b"), true)], {"a", "b"}, [])
  {
    var first := LookUp(0, RequestOf(k, d), SaveEnv(0, Some("a"), Some("a"), false, false));
    var second := LookUp(1, RequestOf(k, d'), SaveEnv(0, Some("b"), Some("b"), false, false));
    Extended([], index, cfg, first);
    Extended([] + [first], index, cfg, second);
    h := [] + [first] + [second];
  }

  lemma {:induction false} CollisionShown<K(!new), D(!new)>(index: Index<K, D>, cfg: Config<D>, k: K, d: D, d': D)
    returns (h: seq<Action<K, D>>)
    requires IndexOk(index, cfg) && !index(k, d, k, d')
    ensures BothStored(h, index, cfg, k, d, d')
  {
    h := BothLookedUp(index, cfg, k, d, d');
    Extended(h, index, cfg, Write(0, false));
    h := h + [Write(0, false)];
    assert At(h, index, cfg).table == map["a" := NewRow(k, d, "a")];
    Extended(h, index, cfg, Write(1, false));
    h := h + [Write(1, false)];
    assert At(h, index, cfg).table == map["a" := NewRow(k, d, "a"), "b" := NewRow(k, d', "b")];
    assert "a" in At(h, index, cfg).table && "b" in At(h, index, cfg).table;
  }

  /** Two rows of one key can come to be stored together exactly if the index does not hold them to be the same. */
  lemma {:induction false} CollideIff<K(!new), D(!new)>(index: Index<K, D>, cfg: Config<D>, k: K, d: D, d': D)
    requires IndexOk(index, cfg)
    ensures (exists h :: BothStored(h, index, cfg, k, d, d')) <==> !index(k, d, k, d')
  {
    if !index(k, d, k, d') {
      var h := CollisionShown(index, cfg, k, d, d');
    }
  }

  // ---------------------------------------------------------------- what two rows of one key cost

  lemma {:induction false} StaysTwice<K(!new), D(!new)>(s: Store<K, D>, a: Action<K, D>, index: Index<K, D>,
                                        cfg: Config<D>, k: K)
    requires IndexOk(index, cfg) && Inv(s, index) && Enabled(s, a) && !a.Remove? && Twice(s.table, k)
    ensures Twice(Act(s, a, index, cfg).table, k)
    ensures a.LookUp? && a.row.key == k ==> Act(s, a, index, cfg) == s
  {
    var g, h :| g in s.table && h in s.table && g != h && s.table[g].key == k && s.table[h].key == k;
    var t' := Act(s, a, index, cfg).table;
    if a.Write? { assert Kin(s.calls[a.id].row, s.table[g]) && Kin(s.calls[a.id].row, s.table[h]); }
    assert g in t' && h in t' && t'[g].key == k && t'[h].key == k;
  }

  lemma {:induction false} TwiceTill<K(!new), D(!new)>(h: seq<Action<K, D>>, end: seq<Action<K, D>>, index: Index<K, D>,
                                                       cfg: Config<D>, k: K)
    requires IndexOk(index, cfg) && History(h, index, cfg) && History(end, index, cfg) && h <= end
    requires Twice(At(h, index, cfg).table, k) && forall j :: |h| <= j < |end| ==> !end[j].Remove?
    ensures Twice(At(end, index, cfg).table, k)
    decreases |end|
  {
    if |end| == |h| {
      assert end == h;
    } else {
      var before := end[..|end| - 1];
      TwiceTill(h, before, index, cfg, k);
      StaysTwice(At(before, index, cfg), end[|end| - 1], index, cfg, k);
    }
  }

  /** Once two rows have the key, no save of it gets past its look-up, in any continuation without a removal. */
  lemma {:induction false} TwiceBlocks<K(!new), D(!new)>(h: seq<Action<K, D>>, end: seq<Action<K, D>>,
                                                         index: Index<K, D>, cfg: Config<D>,
                                                         id: nat, row: Row<K, D>, env: SaveEnv)
    requires IndexOk(index, cfg) && History(h, index, cfg) && History(end, index, cfg) && h <= end
    requires Twice(At(h, index, cfg).table, row.key) && forall j :: |h| <= j < |end| ==> !end[j].Remove?
    requires Enabled(At(end, index, cfg), LookUp(id, row, env))
    ensures Act(At(end, index, cfg), LookUp(id, row, env), index, cfg) == At(end, index, cfg)
  {
    TwiceTill(h, end, index, cfg, row.key);
  }

  // ---------------------------------------------------------------- the two tables

  /** No migration gives the table of HTTP routes an index: the tag of its columns is not one gorm reads. */
  predicate HttpIndex(k: HttpKey, d: HttpData, k': HttpKey, d': HttpData) {
    false
  }

  /** That of TCP mappings has the TLS flag besides the key, and holds no two NULL hostnames to be the same. */
  predicate TcpIndex(k: TcpKey, d: TcpData, k': TcpKey, d': TcpData) {
    k == k' && k.sniHostname.Some? && d.terminateFrontendTls == d'.terminateFrontendTls
  }

  lemma {:induction false} IndexesOk(column: int -> int)
    ensures IndexOk(HttpIndex, HttpConfig(column)) && IndexOk(TcpIndex, TcpConfig(column))
  {
  }

  /** Any HTTP route can come to be stored twice. */
  lemma {:induction false} HttpTwice(column: int -> int, k: HttpKey, d: HttpData, d': HttpData)
    ensures IndexOk(HttpIndex, HttpConfig(column))
    ensures exists h :: BothStored(h, HttpIndex, HttpConfig(column), k, d, d')
  {
    IndexesOk(column);
    CollideIff(HttpIndex, HttpConfig(column), k, d, d');
  }

  /** A TCP mapping can, exactly if it has no SNI hostname or the two rows differ in their TLS flag. */
  lemma {:induction false} TcpTwiceIff(column: int -> int, k: TcpKey, d: TcpData, d': TcpData)
    ensures IndexOk(TcpIndex, TcpConfig(column))
    ensures (exists h :: BothStored(h, TcpIndex, TcpConfig(column), k, d, d')) <==>
            k.sniHostname.None? || d.terminateFrontendTls != d'.terminateFrontendTls
  {
    IndexesOk(column);
    CollideIff(TcpIndex, TcpConfig(column), k, d, d');
  }

  // ---------------------------------------------------------------- one save, undisturbed

  /** A look-up and its write with nothing in between. */
  ghost function Alone<K(!new), D(!new)>(s: Store<K, D>, id: nat, row: Row<K, D>, env: SaveEnv, index: Index<K, D>,
                                         cfg: Config<D>): Store<K, D>
    requires IndexOk(index, cfg) && Inv(s, index) && Enabled(s, LookUp(id, row, env))
  {
    ActKeepsInv(s, LookUp(id, row, env), index, cfg);
    var s' := Act(s, LookUp(id, row, env), index, cfg);
    if id in s'.calls then Act(s', Write(id, env.writeFails), index, cfg) else s'
  }

  /** On a table with one row a key, a save that nobody disturbs does what it does as one operation. */
  lemma {:induction false} AloneIsAtomic<K(!new), D(!new)>(s: Store<K, D>, id: nat, row: Row<K, D>, env: SaveEnv,
                                                           index: Index<K, D>, cfg: Config<D>)
    requires IndexOk(index, cfg) && Inv(s, index) && Enabled(s, LookUp(id, row, env)) && UniqueKeys(s.table)
    ensures var s', e := Alone(s, id, row, env, index, cfg), Save(s.table, row, env, cfg);
            s'.table == e.table && s'.log == s.log + e.events && s'.calls == s.calls
  {
    ActKeepsInv(s, LookUp(id, row, env), index, cfg);
    var s' := Act(s, LookUp(id, row, env), index, cfg);
    if id in s'.calls {
      PlannedHow(s.table, row, env, cfg);
      assert !Refused(s.table, s'.calls[id], index);
      assert s'.calls - {id} == s.calls;
    }
  }
}
