/** What the tags are worth when saves interleave: two saves that read one version announce the same next one. */
module SaveTags {
  import opened Common
  import opened ModificationTags
  import opened RouteTable
  import opened RowLife
  import opened TaggedRouter
  import opened SaveRaces

  /**
   The write replaces the stored row of `k` by one that shows something else, under a tag index that is not
   larger: the table has it, and a router that follows the tags refuses it.
   */
  ghost predicate Eclipsed<K, D>(s: Store<K, D>, a: Action<K, D>, index: Index<K, D>, k: K) {
    Lands(s, a, index) &&
    var row := s.calls[a.id].row;
    && row.key == k && row.guid in s.table
    && row.tag.index <= s.table[row.guid].tag.index && Show(row) != Show(s.table[row.guid])
  }

  ghost predicate NoneEclipsed<K(!new), D(!new)>(h: seq<Action<K, D>>, index: Index<K, D>, cfg: Config<D>, k: K)
    requires IndexOk(index, cfg) && History(h, index, cfg)
    decreases |h|
  {
    h == [] ||
    (NoneEclipsed(h[..|h| - 1], index, cfg, k) && !Eclipsed(At(h[..|h| - 1], index, cfg), h[|h| - 1], index, k))
  }

  /** A router with the tag rules holds what is stored under `k`, now and at every earlier point. */
  ghost predicate RightThroughout<K(!new), D(!new)>(h: seq<Action<K, D>>, index: Index<K, D>, cfg: Config<D>, k: K)
    requires IndexOk(index, cfg) && History(h, index, cfg)
    decreases |h|
  {
    && FollowAll(None, At(h, index, cfg).log, k) == Expected(At(h, index, cfg).table, k)
    && (h == [] || RightThroughout(h[..|h| - 1], index, cfg, k))
  }

  // ---------------------------------------------------------------- one step

  lemma {:induction false} PutExpected<K, D>(t: Table<K, D>, row: Row<K, D>, k: K)
    requires Valid(t) && Valid(t[row.guid := row]) && (row.guid in t ==> t[row.guid].key == row.key)
    ensures Expected(t[row.guid := row], k) == if k == row.key then Some(Show(row)) else Expected(t, k)
  {
    PutHolder(t, row, k);
    assert Holds(t, k) <==> Holder(t, k).Some?;
    assert Holds(t[row.guid := row], k) <==> Holder(t[row.guid := row], k).Some?;
  }

  /** A row of the same life is taken exactly if its index is larger, and if there is none it is taken. */
  lemma {:induction false} PutRight<K, D>(t: Table<K, D>, row: Row<K, D>, kind: EventType, k: K)
    requires Valid(t) && Valid(t[row.guid := row]) && (kind == CreateEvent || kind == UpdateEvent) && row.tag.guid != ""
    requires row.guid in t ==> t[row.guid].key == row.key && t[row.guid].tag.guid == row.tag.guid
    requires row.guid !in t ==> !Holds(t, row.key)
    ensures FollowTags(Expected(t, k), Event(kind, Show(row)), k) == Expected(t[row.guid := row], k) <==>
            !(k == row.key && row.guid in t && row.tag.index <= t[row.guid].tag.index && Show(row) != Show(t[row.guid]))
  {
    PutExpected(t, row, k);
    if k == row.key && row.guid in t { assert Holder(t, k) == Some(row.guid); }
  }

  lemma {:induction false} FollowLast<K, D>(log: seq<Event<K, D>>, e: Event<K, D>, k: K)
    ensures FollowAll(None, log + [e], k) == FollowTags(FollowAll(None, log, k), e, k)
  {
    FollowConcat(None, log, [e], k);
    FollowSingle(FollowAll(None, log, k), [e], k);
  }

  lemma {:induction false} WriteRight<K(!new), D(!new)>(s: Store<K, D>, a: Action<K, D>, index: Index<K, D>,
                                                        cfg: Config<D>, k: K)
    requires IndexOk(index, cfg) && Inv(s, index) && Enabled(s, a) && UniqueKeys(s.table)
    requires Lands(s, a, index) && UniqueKeys(Act(s, a, index, cfg).table)
    requires FollowAll(None, s.log, k) == Expected(s.table, k)
    ensures FollowAll(None, Act(s, a, index, cfg).log, k) == Expected(Act(s, a, index, cfg).table, k)
       <==> !Eclipsed(s, a, index, k)
  {
    var Plan(row, isNew) := s.calls[a.id];
    var kind := if isNew then CreateEvent else UpdateEvent;
    ActKeepsInv(s, a, index, cfg);
    StepUnique(s, a, index, cfg);
    if row.guid in s.table { assert Kin(row, s.table[row.guid]); }
    FollowLast(s.log, Event(kind, Show(row)), k);
    PutRight(s.table, row, kind, k);
  }

  lemma {:induction false} RemoveRight<K(!new), D(!new)>(s: Store<K, D>, g: string, index: Index<K, D>, cfg: Config<D>,
                                                         k: K)
    requires IndexOk(index, cfg) && Inv(s, index) && UniqueKeys(s.table)
    requires FollowAll(None, s.log, k) == Expected(s.table, k)
    ensures FollowAll(None, Act(s, Remove(g), index, cfg).log, k) == Expected(Act(s, Remove(g), index, cfg).table, k)
  {
    if g in s.table {
      FollowLast(s.log, Event(DeleteEvent, Show(s.table[g])), k);
      DropExpected(s.table, {g}, {s.table[g].key}, k);
      if k == s.table[g].key { assert Holder(s.table, k) == Some(g); }
    }
  }

  lemma {:induction false} StepRight<K(!new), D(!new)>(s: Store<K, D>, a: Action<K, D>, index: Index<K, D>,
                                                       cfg: Config<D>, k: K)
    requires IndexOk(index, cfg) && Inv(s, index) && Enabled(s, a) && UniqueKeys(s.table)
    requires UniqueKeys(Act(s, a, index, cfg).table) && FollowAll(None, s.log, k) == Expected(s.table, k)
    ensures FollowAll(None, Act(s, a, index, cfg).log, k) == Expected(Act(s, a, index, cfg).table, k)
       <==> !Eclipsed(s, a, index, k)
  {
    if Lands(s, a, index) {
      WriteRight(s, a, index, cfg, k);
    } else if a.Remove? {
      RemoveRight(s, a.guid, index, cfg, k);
    }
  }

  // ---------------------------------------------------------------- every interleaving

  /**
   As long as no key has two rows, a router that follows the tags is right about a key at every point of an
   interleaving of saves if and only if no write of the key is eclipsed.
   */
  lemma {:induction false} RightIff<K(!new), D(!new)>(h: seq<Action<K, D>>, index: Index<K, D>, cfg: Config<D>, k: K)
    requires IndexOk(index, cfg) && History(h, index, cfg) && UniqueThroughout(h, index, cfg)
    ensures RightThroughout(h, index, cfg, k) <==> NoneEclipsed(h, index, cfg, k)
    decreases |h|
  {
    if h != [] {
      var before := h[..|h| - 1];
      RightIff(before, index, cfg, k);
      assert UniqueKeys(At(before, index, cfg).table) && UniqueKeys(At(h, index, cfg).table);
      if RightThroughout(before, index, cfg, k) {
        StepRight(At(before, index, cfg), h[|h| - 1], index, cfg, k);
      }
    }
  }

  // ---------------------------------------------------------------- what eclipses a write

  /** At `j` another save wrote the same row. */
  ghost predicate Rewrites<K(!new), D(!new)>(h: seq<Action<K, D>>, index: Index<K, D>, cfg: Config<D>, id: nat, j: nat)
    requires IndexOk(index, cfg) && History(h, index, cfg) && id in At(h, index, cfg).calls
  {
    && j < |h| && History(h[..j], index, cfg) && Lands(At(h[..j], index, cfg), h[j], index) && h[j].id != id
    && At(h[..j], index, cfg).calls[h[j].id].row.guid == At(h, index, cfg).calls[id].row.guid
  }

  /** The row with this guid is stored under an index of at least `n`. */
  ghost predicate Reached<K, D>(t: Table<K, D>, g: string, n: int) {
    g in t && n <= t[g].tag.index
  }

  lemma {:induction false} StepReaches<K(!new), D(!new)>(s: Store<K, D>, a: Action<K, D>, index: Index<K, D>,
                                                         cfg: Config<D>, g: string, n: int)
    requires IndexOk(index, cfg) && Inv(s, index) && Enabled(s, a)
    requires !Reached(s.table, g, n) && Reached(Act(s, a, index, cfg).table, g, n)
    ensures Lands(s, a, index) && s.calls[a.id].row.guid == g
  {
  }

  lemma {:induction false} LaterRewrites<K(!new), D(!new)>(h: seq<Action<K, D>>, index: Index<K, D>, cfg: Config<D>,
                                                           id: nat, j: nat)
    requires IndexOk(index, cfg) && h != [] && History(h, index, cfg) && id in At(h, index, cfg).calls
    requires id in At(h[..|h| - 1], index, cfg).calls && Rewrites(h[..|h| - 1], index, cfg, id, j)
    requires At(h[..|h| - 1], index, cfg).calls[id] == At(h, index, cfg).calls[id]
    ensures Rewrites(h, index, cfg, id, j)
  {
    var before := h[..|h| - 1];
    assert h[j] == before[j] && h[..j] == before[..j];
  }

  /** A call that has only just looked up is ahead of the table. */
  lemma {:induction false} PlannedAbove<K(!new), D(!new)>(s: Store<K, D>, a: Action<K, D>, index: Index<K, D>,
                                                          cfg: Config<D>)
    requires IndexOk(index, cfg) && Inv(s, index) && Enabled(s, a) && a.LookUp?
    ensures var s' := Act(s, a, index, cfg);
            a.id in s'.calls && !s'.calls[a.id].isNew && s'.calls[a.id].row.tag.index > 0 ==>
            !Reached(s'.table, s'.calls[a.id].row.guid, s'.calls[a.id].row.tag.index)
  {
    if Planned(s.table, a.row, a.env, cfg).Some? { PlannedHow(s.table, a.row, a.env, cfg); }
  }

  /** A call that has looked up earlier, and the step since. */
  lemma {:induction false} EclipsedNow<K(!new), D(!new)>(h: seq<Action<K, D>>, index: Index<K, D>, cfg: Config<D>,
                                                         id: nat)
    requires IndexOk(index, cfg) && h != [] && History(h, index, cfg) && id in At(h, index, cfg).calls
    requires !(h[|h| - 1].LookUp? && h[|h| - 1].id == id)
    requires var row := At(h, index, cfg).calls[id].row;
             && Reached(At(h, index, cfg).table, row.guid, row.tag.index)
             && !Reached(At(h[..|h| - 1], index, cfg).table, row.guid, row.tag.index)
    ensures Rewrites(h, index, cfg, id, |h| - 1)
  {
    var before, a := h[..|h| - 1], h[|h| - 1];
    StillPlanned(At(before, index, cfg), a, index, cfg, id);
    var row := At(h, index, cfg).calls[id].row;
    StepReaches(At(before, index, cfg), a, index, cfg, row.guid, row.tag.index);
  }

  /**
   An update whose index, unless it wrapped to 0, is not larger than the stored one was overtaken: between its
   look-up and its write another save wrote the same row.
   */
  lemma {:induction false} EclipsedHow<K(!new), D(!new)>(h: seq<Action<K, D>>, index: Index<K, D>, cfg: Config<D>,
                                                         id: nat)
    returns (i: nat, j: nat)
    requires IndexOk(index, cfg) && History(h, index, cfg) && id in At(h, index, cfg).calls
    requires var Plan(row, isNew) := At(h, index, cfg).calls[id];
             !isNew && row.tag.index > 0 && Reached(At(h, index, cfg).table, row.guid, row.tag.index)
    ensures i < j && LookedUpAt(h, id, i) && Rewrites(h, index, cfg, id, j)
    decreases |h|
  {
    var before, a := h[..|h| - 1], h[|h| - 1];
    var s, row := At(before, index, cfg), At(h, index, cfg).calls[id].row;
    if a.LookUp? && a.id == id {
      PlannedAbove(s, a, index, cfg);
    } else {
      StillPlanned(s, a, index, cfg, id);
      if Reached(s.table, row.guid, row.tag.index) {
        i, j := EclipsedHow(before, index, cfg, id);
        LaterRewrites(h, index, cfg, id, j);
      } else {
        EclipsedNow(h, index, cfg, id);
        i := PlannedAt(before, index, cfg, id);
        j := |before|;
      }
      LaterLookedUp(h, id, i);
    }
  }

  // ---------------------------------------------------------------- shown

  function Update<K, D>(k: K, d: D, ttl: int, cfg: Config<D>): Row<K, D> {
    Row("a", ttl * SECOND, k, Some(ttl), ModificationTag("a", 1), cfg.merge(d, d))
  }

  lemma {:induction false} OneStored<K(!new), D(!new)>(index: Index<K, D>, cfg: Config<D>, k: K, d: D)
    returns (h: seq<Action<K, D>>)
    requires IndexOk(index, cfg)
    ensures History(h, index, cfg)
    ensures At(h, index, cfg) == Store(map["a" := NewRow(k, d, "a")], map[], {"a"},
                                       [Event(CreateEvent, Show(NewRow(k, d, "a")))])
  {
    var look := LookUp(0, RequestOf(k, d), SaveEnv(0, Some("a"), Some("a"), false, false));
    Extended([], index, cfg, look);
    h := [] + [look];
    Extended(h, index, cfg, Write(0, false));
    h := h + [Write(0, false)];
    assert At(h, index, cfg).table == map["a" := NewRow(k, d, "a")];
  }

  lemma {:induction false} LookUpLone<K(!new), D(!new)>(s: Store<K, D>, id: nat, index: Index<K, D>, cfg: Config<D>,
                                                        k: K, d: D, ttl: int)
    requires IndexOk(index, cfg) && Inv(s, index) && id !in s.calls
    requires s.table == map["a" := NewRow(k, d, "a")] && s.issued == {"a"}
    ensures var look := LookUp(id, RequestOf(k, d).(ttl := Some(ttl)), SaveEnv(0, None, None, false, false));
            && Enabled(s, look)
            && Act(s, look, index, cfg) == s.(calls := s.calls[id := Plan(Update(k, d, ttl, cfg), false)])
  {
    assert Holder(s.table, k) == Some("a") by { assert "a" in s.table && s.table["a"].key == k; }
    assert s.issued + {"a"} == s.issued;
  }

  lemma {:induction false} WriteLone<K(!new), D(!new)>(s: Store<K, D>, id: nat, index: Index<K, D>, cfg: Config<D>,
                                                       row: Row<K, D>)
    requires IndexOk(index, cfg) && Inv(s, index) && s.table.Keys == {"a"} && row.guid == "a"
    requires id in s.calls && s.calls[id] == Plan(row, false)
    ensures Act(s, Write(id, false), index, cfg) ==
            Store(map["a" := row], s.calls - {id}, s.issued, s.log + [Event(UpdateEvent, Show(row))])
  {
    assert s.table["a" := row] == map["a" := row];
  }

  /** Two saves of the stored row, for one second and for two, both look it up before either writes. */
  lemma {:induction false} TwoUpdates<K(!new), D(!new)>(index: Index<K, D>, cfg: Config<D>, k: K, d: D)
    returns (h: seq<Action<K, D>>)
    requires IndexOk(index, cfg)
    ensures History(h, index, cfg)
    ensures At(h, index, cfg) ==
            Store(map["a" := NewRow(k, d, "a")],
                  map[1 := Plan(Update(k, d, 1, cfg), false), 2 := Plan(Update(k, d, 2, cfg), false)], {"a"},
                  [Event(CreateEvent, Show(NewRow(k, d, "a")))])
  {
    h := OneStored(index, cfg, k, d);
    var env := SaveEnv(0, None, None, false, false);
    var one, two := LookUp(1, RequestOf(k, d).(ttl := Some(1)), env), LookUp(2, RequestOf(k, d).(ttl := Some(2)), env);
    LookUpLone(At(h, index, cfg), 1, index, cfg, k, d, 1);
    Extended(h, index, cfg, one);
    h := h + [one];
    LookUpLone(At(h, index, cfg), 2, index, cfg, k, d, 2);
    Extended(h, index, cfg, two);
    h := h + [two];
  }

  lemma {:induction false} BothWritten<K(!new), D(!new)>(index: Index<K, D>, cfg: Config<D>, k: K, d: D)
    returns (h: seq<Action<K, D>>)
    requires IndexOk(index, cfg)
    ensures History(h, index, cfg)
    ensures At(h, index, cfg) ==
            Store(map["a" := Update(k, d, 2, cfg)], map[], {"a"},
                  [Event(CreateEvent, Show(NewRow(k, d, "a")))] + [Event(UpdateEvent, Show(Update(k, d, 1, cfg)))]
                  + [Event(UpdateEvent, Show(Update(k, d, 2, cfg)))])
  {
    h := TwoUpdates(index, cfg, k, d);
    WriteLone(At(h, index, cfg), 1, index, cfg, Update(k, d, 1, cfg));
    Extended(h, index, cfg, Write(1, false));
    h := h + [Write(1, false)];
    WriteLone(At(h, index, cfg), 2, index, cfg, Update(k, d, 2, cfg));
    Extended(h, index, cfg, Write(2, false));
    h := h + [Write(2, false)];
    assert At(h, index, cfg).calls == map[];
  }

  lemma {:induction false} LoneExpected<K, D>(row: Row<K, D>)
    ensures Expected(map["a" := row], row.key) == Some(Show(row)) && UniqueKeys(map["a" := row])
  {
    assert "a" in map["a" := row] && map["a" := row]["a"].key == row.key;
  }

  /**
   For any route there is an interleaving of saves after which a router with the tag rules holds an overwritten
   version.
   */
  lemma {:induction false} UpdateIsEclipsed<K(!new), D(!new)>(index: Index<K, D>, cfg: Config<D>, k: K, d: D)
    requires IndexOk(index, cfg)
    ensures exists h: seq<Action<K, D>> ::
              && History(h, index, cfg) && UniqueKeys(At(h, index, cfg).table)
              && Expected(At(h, index, cfg).table, k) == Some(Show(Update(k, d, 2, cfg)))
              && FollowAll(None, At(h, index, cfg).log, k) == Some(Show(Update(k, d, 1, cfg)))
  {
    var h := BothWritten(index, cfg, k, d);
    LoneExpected(Update(k, d, 2, cfg));
    EclipsedLog(NewRow(k, d, "a"), Update(k, d, 1, cfg), Update(k, d, 2, cfg));
  }

  lemma {:induction false} EclipsedLog<K, D>(created: Row<K, D>, first: Row<K, D>, second: Row<K, D>)
    requires created.key == first.key == second.key && first.tag == second.tag == created.tag.Increment()
    requires created.tag.guid != "" && created.tag.index == 0
    ensures var log := [Event(CreateEvent, Show(created))] + [Event(UpdateEvent, Show(first))]
                       + [Event(UpdateEvent, Show(second))];
            FollowAll(None, log, created.key) == Some(Show(first))
  {
    var a, b, c := Event(CreateEvent, Show(created)), Event(UpdateEvent, Show(first)), Event(UpdateEvent, Show(second));
    FollowLast([a] + [b], c, created.key);
    FollowLast([a], b, created.key);
    FollowSingle(None, [a], created.key);
  }
}
