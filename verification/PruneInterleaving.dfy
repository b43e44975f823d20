/**
 Pruning as it really runs: a goroutine started by a ticker behind a compare-and-swap, which
 finds, deletes and reports in separate steps while saves and deletes go on. One system is one
 kind of route; the two kinds share no state.
 */
module PruneInterleaving {
  import opened RouteTable

  /** Where a pruning goroutine is. */
  datatype Phase<K, D> =
    | Finding
    | Deleting(found: seq<Row<K, D>>)
    | Emitting(found: seq<Row<K, D>>, next: nat)

  /** `issued` holds every guid a row was ever created under; `prunes` the running goroutines. */
  datatype System<K, D> =
    System(table: Table<K, D>, log: seq<Event<K, D>>, issued: set<string>, clock: int,
           inFlight: int, prunes: map<nat, Phase<K, D>>)

  datatype Action<K, D> =
    | Advance(now: int)
    | Request(step: Step<K, D>)
    | Tick(id: nat)
    | FindRows(id: nat, found: seq<Row<K, D>>, fails: bool)
    | DeleteRows(id: nat, fails: bool)
    | EmitExpiry(id: nat)
    | Return(id: nat)

  ghost function Initial<K, D>(): System<K, D> {
    System(map[], [], {}, 0, 0, map[])
  }

  /** The rows held by a goroutine are distinct, were all created, and keep their keys as long as they are stored. */
  ghost predicate PhaseOk<K, D>(phase: Phase<K, D>, issued: set<string>, t: Table<K, D>) {
    match phase
    case Finding => true
    case Deleting(found) =>
      && GuidsOf(found) <= issued
      && (forall i, j :: 0 <= i < j < |found| ==> found[i].guid != found[j].guid)
      && (forall i :: 0 <= i < |found| && found[i].guid in t ==> t[found[i].guid].key == found[i].key)
    case Emitting(found, next) => next <= |found|
  }

  ghost predicate Inv<K, D>(s: System<K, D>) {
    && Valid(s.table)
    && s.table.Keys <= s.issued
    && (s.inFlight == 0 || s.inFlight == 1)
    && (s.inFlight == 0 <==> s.prunes == map[])
    && (forall i, j :: i in s.prunes && j in s.prunes ==> i == j)
    && (forall id :: id in s.prunes ==> PhaseOk(s.prunes[id], s.issued, s.table))
  }

  ghost predicate Enabled<K, D>(s: System<K, D>, a: Action<K, D>, cfg: Config<D>) {
    match a
    case Advance(now) => s.clock <= now
    case Request(step) =>
      && !step.PruneStep?
      && Possible(s.table, step, cfg)
      && (step.SaveStep? ==> step.env.now == s.clock && (step.env.guid.Some? ==> step.env.guid.value !in s.issued))
    case Tick(id) => id !in s.prunes
    case FindRows(id, found, fails) =>
      id in s.prunes && s.prunes[id].Finding? && (fails || Answers(found, s.table, s.clock, cfg.column))
    case DeleteRows(id, _) => id in s.prunes && s.prunes[id].Deleting?
    case EmitExpiry(id) => id in s.prunes && s.prunes[id].Emitting? && s.prunes[id].next < |s.prunes[id].found|
    case Return(id) => id in s.prunes && s.prunes[id].Emitting? && s.prunes[id].next == |s.prunes[id].found|
  }

  /** A goroutine ends by clearing the in-flight word. */
  ghost function Ended<K, D>(s: System<K, D>, id: nat): System<K, D> {
    s.(prunes := s.prunes - {id}, inFlight := 0)
  }

  ghost function Act<K, D>(s: System<K, D>, a: Action<K, D>, cfg: Config<D>): System<K, D>
    requires Inv(s) && Enabled(s, a, cfg)
  {
    match a
    case Advance(now) => s.(clock := now)
    case Request(step) =>
      var e := Apply(s.table, step, cfg);
      s.(table := e.table, log := s.log + e.events, issued := s.issued + e.table.Keys)
    case Tick(id) =>
      if s.inFlight == 0 then s.(inFlight := 1, prunes := s.prunes[id := Finding]) else s
    case FindRows(id, found, fails) =>
      if fails then Ended(s, id) else s.(prunes := s.prunes[id := Deleting(found)])
    case DeleteRows(id, fails) =>
      if fails then Ended(s, id) else
      var found := s.prunes[id].found;
      s.(table := s.table - Elements(PaddedGuids(found)), prunes := s.prunes[id := Emitting(found, 0)])
    case EmitExpiry(id) =>
      var Emitting(found, next) := s.prunes[id];
      s.(log := s.log + [Event(ExpireEvent, Show(found[next]))], prunes := s.prunes[id := Emitting(found, next + 1)])
    case Return(id) => Ended(s, id)
  }

  /** A request that fails changes nothing; one that succeeds emits one event. Neither touches a prune. */
  lemma RequestEffect<K, D>(s: System<K, D>, step: Step<K, D>, cfg: Config<D>)
    requires Inv(s) && Enabled(s, Request(step), cfg)
    ensures var s', e := Act(s, Request(step), cfg), Apply(s.table, step, cfg);
            && s'.table == e.table && s'.log == s.log + e.events && s'.prunes == s.prunes && s'.clock == s.clock
            && (e.error.Some? ==> e.table == s.table && e.events == [] && s'.log == s.log)
            && (e.error.None? ==> |e.events| == 1)
  {
  }

  lemma RequestKeepsInv<K, D>(s: System<K, D>, step: Step<K, D>, cfg: Config<D>)
    requires Inv(s) && Enabled(s, Request(step), cfg)
    ensures Inv(Act(s, Request(step), cfg))
  {
    StepKeepsValid(s.table, step, cfg);
    var s' := Act(s, Request(step), cfg);
    forall id | id in s'.prunes ensures PhaseOk(s'.prunes[id], s'.issued, s'.table) {
      assert PhaseOk(s.prunes[id], s.issued, s.table);
      if s.prunes[id].Deleting? {
        var found := s.prunes[id].found;
        forall i | 0 <= i < |found| && found[i].guid in s'.table ensures s'.table[found[i].guid].key == found[i].key {
          assert found[i].guid in GuidsOf(found);
        }
      }
    }
  }

  /** At most one prune runs, and the in-flight word says whether one does. */
  lemma ActKeepsInv<K, D>(s: System<K, D>, a: Action<K, D>, cfg: Config<D>)
    requires Inv(s) && Enabled(s, a, cfg)
    ensures Inv(Act(s, a, cfg))
  {
    if a.Request? {
      RequestKeepsInv(s, a.step, cfg);
    } else if a.DeleteRows? && !a.fails {
      assert Valid(Act(s, a, cfg).table);
    }
  }

  // ---------------------------------------------------------------- histories

  ghost predicate History<K, D>(h: seq<Action<K, D>>, cfg: Config<D>)
    decreases |h|, 0
  {
    h == [] ||
    var before := h[..|h| - 1];
    History(before, cfg) && Enabled(At(before, cfg), h[|h| - 1], cfg)
  }

  /** The state a history leads to; every one satisfies the invariant. */
  ghost function At<K, D>(h: seq<Action<K, D>>, cfg: Config<D>): (s: System<K, D>)
    requires History(h, cfg)
    ensures Inv(s)
    decreases |h|, 1
  {
    if h == [] then Initial() else
    var before := At(h[..|h| - 1], cfg);
    ActKeepsInv(before, h[|h| - 1], cfg);
    Act(before, h[|h| - 1], cfg)
  }

  // ---------------------------------------------------------------- one prune, undisturbed

  /** The rest of a prune that has deleted its rows, with nothing in between: it reports them and returns. */
  ghost function Reported<K, D>(s: System<K, D>, id: nat, cfg: Config<D>): System<K, D>
    requires Inv(s) && id in s.prunes && s.prunes[id].Emitting?
    decreases |s.prunes[id].found| - s.prunes[id].next
  {
    assert PhaseOk(s.prunes[id], s.issued, s.table);
    if s.prunes[id].next == |s.prunes[id].found| then Act(s, Return(id), cfg) else
    ActKeepsInv(s, EmitExpiry(id), cfg);
    Reported(Act(s, EmitExpiry(id), cfg), id, cfg)
  }

  /** A prune from its tick until it returns, with nothing in between. */
  ghost function Alone<K, D>(s: System<K, D>, id: nat, found: seq<Row<K, D>>, findFails: bool, writeFails: bool,
                             cfg: Config<D>): System<K, D>
    requires Inv(s) && s.prunes == map[] && (findFails || Answers(found, s.table, s.clock, cfg.column))
  {
    ActKeepsInv(s, Tick(id), cfg);
    var s1 := Act(s, Tick(id), cfg);
    ActKeepsInv(s1, FindRows(id, found, findFails), cfg);
    var s2 := Act(s1, FindRows(id, found, findFails), cfg);
    if findFails then s2 else
    ActKeepsInv(s2, DeleteRows(id, writeFails), cfg);
    var s3 := Act(s2, DeleteRows(id, writeFails), cfg);
    if writeFails then s3 else Reported(s3, id, cfg)
  }

  lemma ExpireNext<K, D>(found: seq<Row<K, D>>, next: nat)
    requires next < |found|
    ensures ExpireEvents(found[next..]) == [Event(ExpireEvent, Show(found[next]))] + ExpireEvents(found[next + 1..])
  {
  }

  lemma {:induction false} ReportedAll<K, D>(s: System<K, D>, id: nat, cfg: Config<D>)
    requires Inv(s) && id in s.prunes && s.prunes[id].Emitting?
    ensures var s', found, next := Reported(s, id, cfg), s.prunes[id].found, s.prunes[id].next;
            && s' == s.(prunes := map[], inFlight := 0, log := s'.log) && next <= |found|
            && s'.log == s.log + ExpireEvents(found[next..])
    decreases |s.prunes[id].found| - s.prunes[id].next
  {
    assert PhaseOk(s.prunes[id], s.issued, s.table);
    var Emitting(found, next) := s.prunes[id];
    if next == |found| {
      assert s.prunes - {id} == map[];
    } else {
      ActKeepsInv(s, EmitExpiry(id), cfg);
      ReportedAll(Act(s, EmitExpiry(id), cfg), id, cfg);
      ExpireNext(found, next);
    }
  }

  /** Step by step, a prune that nobody disturbs does what it does as one operation. */
  lemma {:induction false} AloneIsAtomic<K, D>(s: System<K, D>, id: nat, found: seq<Row<K, D>>, findFails: bool,
                                               writeFails: bool, cfg: Config<D>)
    requires Inv(s) && s.prunes == map[] && (findFails || Answers(found, s.table, s.clock, cfg.column))
    ensures var s', e := Alone(s, id, found, findFails, writeFails, cfg), Prune(s.table, found, findFails, writeFails);
            s' == s.(table := e.table, log := s.log + e.events)
  {
    ActKeepsInv(s, Tick(id), cfg);
    var s1 := Act(s, Tick(id), cfg);
    ActKeepsInv(s1, FindRows(id, found, findFails), cfg);
    var s2 := Act(s1, FindRows(id, found, findFails), cfg);
    assert s1.prunes - {id} == map[];
    if !findFails {
      ActKeepsInv(s2, DeleteRows(id, writeFails), cfg);
      var s3 := Act(s2, DeleteRows(id, writeFails), cfg);
      assert s2.prunes - {id} == map[];
      if !writeFails {
        ReportedAll(s3, id, cfg);
        assert found[0..] == found;
      }
    }
  }
}
