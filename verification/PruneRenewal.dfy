/** Exactly which rows a prune removes although they are no longer the rows it found: those renewed since its find. */
module PruneRenewal {
  import opened Common
  import opened RouteTable
  import opened PruneInterleaving
  import opened PruneHistory
  import opened Expiry

  /** The rows upserted since the last successful find, by guid, with the time of the last upsert. */
  ghost function NextRenewed<K, D>(renewed: map<string, int>, s: System<K, D>, a: Action<K, D>, cfg: Config<D>)
    : map<string, int>
    requires Inv(s) && Enabled(s, a, cfg)
  {
    match a
    case Request(SaveStep(row, env)) =>
      var e := Save(s.table, row, env, cfg);
      if e.error.Some? then renewed else renewed[SavedUnder(s.table, row, env) := s.clock]
    case FindRows(_, _, fails) => if fails then renewed else map[]
    case _ => renewed
  }

  ghost function Renewed<K, D>(h: seq<Action<K, D>>, cfg: Config<D>): map<string, int>
    requires History(h, cfg)
    decreases |h|
  {
    if h == [] then map[]
    else NextRenewed(Renewed(h[..|h| - 1], cfg), At(h[..|h| - 1], cfg), h[|h| - 1], cfg)
  }

  // ---------------------------------------------------------------- rows not renewed

  /** A found row that is stored and not renewed is the row found, and still expired. */
  ghost predicate Untouched<K, D>(phase: Phase<K, D>, t: Table<K, D>, clock: int, renewed: map<string, int>,
                                  column: int -> int)
  {
    phase.Deleting? ==>
      forall i :: 0 <= i < |phase.found| && phase.found[i].guid in t && phase.found[i].guid !in renewed ==>
        t[phase.found[i].guid] == phase.found[i] && Expired(phase.found[i], clock, column)
  }

  ghost predicate AllUntouched<K, D>(s: System<K, D>, renewed: map<string, int>, column: int -> int) {
    forall id :: id in s.prunes ==> Untouched(s.prunes[id], s.table, s.clock, renewed, column)
  }

  /** An upsert writes one row; a delete writes none. */
  lemma RequestWrites<K, D>(s: System<K, D>, step: Step<K, D>, cfg: Config<D>, g: string)
    requires Inv(s) && Enabled(s, Request(step), cfg) && g in s.issued && g in Act(s, Request(step), cfg).table
    ensures g in s.table
    ensures Act(s, Request(step), cfg).table[g] != s.table[g] ==>
              && step.SaveStep? && Save(s.table, step.row, step.env, cfg).error.None?
              && g == SavedUnder(s.table, step.row, step.env)
  {
  }

  lemma RequestUntouched<K, D>(s: System<K, D>, step: Step<K, D>, cfg: Config<D>, renewed: map<string, int>)
    requires Inv(s) && Enabled(s, Request(step), cfg) && AllUntouched(s, renewed, cfg.column)
    ensures AllUntouched(Act(s, Request(step), cfg), NextRenewed(renewed, s, Request(step), cfg), cfg.column)
  {
    var s', renewed' := Act(s, Request(step), cfg), NextRenewed(renewed, s, Request(step), cfg);
    forall id | id in s'.prunes ensures Untouched(s'.prunes[id], s'.table, s'.clock, renewed', cfg.column) {
      assert Untouched(s.prunes[id], s.table, s.clock, renewed, cfg.column);
      assert PhaseOk(s.prunes[id], s.issued, s.table);
      if s.prunes[id].Deleting? {
        var found := s.prunes[id].found;
        forall i | 0 <= i < |found| && found[i].guid in s'.table && found[i].guid !in renewed'
          ensures s'.table[found[i].guid] == found[i] && Expired(found[i], s'.clock, cfg.column)
        {
          assert found[i].guid in GuidsOf(found);
          RequestWrites(s, step, cfg, found[i].guid);
        }
      }
    }
  }

  lemma OtherUntouched<K, D>(s: System<K, D>, a: Action<K, D>, cfg: Config<D>, renewed: map<string, int>)
    requires Inv(s) && Enabled(s, a, cfg) && !a.Request? && AllUntouched(s, renewed, cfg.column)
    ensures AllUntouched(Act(s, a, cfg), NextRenewed(renewed, s, a, cfg), cfg.column)
  {
    var s', renewed' := Act(s, a, cfg), NextRenewed(renewed, s, a, cfg);
    forall id | id in s'.prunes ensures Untouched(s'.prunes[id], s'.table, s'.clock, renewed', cfg.column) {
      if !(a.FindRows? && a.id == id) && s'.prunes[id].Deleting? {
        StillDeleting(s, a, cfg, id);
        assert Untouched(s.prunes[id], s.table, s.clock, renewed, cfg.column);
      }
    }
  }

  lemma {:induction false} HistoryUntouched<K, D>(h: seq<Action<K, D>>, cfg: Config<D>)
    requires History(h, cfg)
    ensures AllUntouched(At(h, cfg), Renewed(h, cfg), cfg.column)
    decreases |h|
  {
    if h != [] {
      var before, a := h[..|h| - 1], h[|h| - 1];
      HistoryUntouched(before, cfg);
      if a.Request? {
        RequestUntouched(At(before, cfg), a.step, cfg, Renewed(before, cfg));
      } else {
        OtherUntouched(At(before, cfg), a, cfg, Renewed(before, cfg));
      }
    }
  }

  // ---------------------------------------------------------------- renewed rows

  /** The handlers let only positive ttls through. */
  ghost predicate PositiveTtls<K, D>(h: seq<Action<K, D>>) {
    forall i :: 0 <= i < |h| && h[i].Request? && h[i].step.SaveStep? && h[i].step.row.ttl.Some? ==>
      0 < h[i].step.row.ttl.value
  }

  /** Every renewed row that is stored expires its ttl after its last renewal. */
  ghost predicate TableDated<K, D>(t: Table<K, D>, renewed: map<string, int>)
    requires Valid(t)
  {
    && (forall g :: g in t ==> 0 < t[g].ttl.value)
    && (forall g :: g in renewed && g in t ==> t[g].expiresAt == renewed[g] + t[g].ttl.value * SECOND)
  }

  /** Every row about to be deleted had expired before any of the renewals, and they before now. */
  ghost predicate PhaseDated<K, D>(phase: Phase<K, D>, clock: int, renewed: map<string, int>) {
    phase.Deleting? ==>
      forall i :: 0 <= i < |phase.found| ==>
        phase.found[i].expiresAt < clock && forall g :: g in renewed ==> phase.found[i].expiresAt < renewed[g]
  }

  ghost predicate RenewalsDated<K, D>(s: System<K, D>, renewed: map<string, int>)
    requires Valid(s.table)
  {
    && TableDated(s.table, renewed)
    && (forall g :: g in renewed ==> renewed[g] <= s.clock)
    && (forall id :: id in s.prunes ==> PhaseDated(s.prunes[id], s.clock, renewed))
  }

  lemma SaveDated<K, D>(t: Table<K, D>, row: Row<K, D>, env: SaveEnv, cfg: Config<D>, renewed: map<string, int>)
    requires Valid(t) && Possible(t, SaveStep(row, env), cfg) && TableDated(t, renewed)
    requires Save(t, row, env, cfg).error.None? && (row.ttl.Some? ==> 0 < row.ttl.value)
    ensures Valid(Save(t, row, env, cfg).table)
    ensures TableDated(Save(t, row, env, cfg).table, renewed[SavedUnder(t, row, env) := env.now])
  {
    StepKeepsValid(t, SaveStep(row, env), cfg);
    SavePuts(t, row, env, cfg);
  }

  lemma ClockDated<K, D>(s: System<K, D>, s': System<K, D>, renewed: map<string, int>, g: string)
    requires Valid(s.table) && RenewalsDated(s, renewed)
    requires Valid(s'.table) && TableDated(s'.table, renewed[g := s.clock])
    requires s'.prunes == s.prunes && s'.clock == s.clock
    ensures RenewalsDated(s', renewed[g := s.clock])
  {
    forall id | id in s'.prunes ensures PhaseDated(s'.prunes[id], s.clock, renewed[g := s.clock]) {
      assert PhaseDated(s.prunes[id], s.clock, renewed);
    }
  }

  lemma ShrunkDated<K, D>(s: System<K, D>, s': System<K, D>, renewed: map<string, int>)
    requires Valid(s.table) && RenewalsDated(s, renewed)
    requires Valid(s'.table) && s'.table.Keys <= s.table.Keys && forall g :: g in s'.table ==> s'.table[g] == s.table[g]
    requires s'.prunes == s.prunes && s'.clock == s.clock
    ensures RenewalsDated(s', renewed)
  {
  }

  lemma RequestDated<K, D>(s: System<K, D>, step: Step<K, D>, cfg: Config<D>, renewed: map<string, int>)
    requires Inv(s) && Enabled(s, Request(step), cfg) && RenewalsDated(s, renewed)
    requires step.SaveStep? && step.row.ttl.Some? ==> 0 < step.row.ttl.value
    ensures Valid(Act(s, Request(step), cfg).table)
    ensures RenewalsDated(Act(s, Request(step), cfg), NextRenewed(renewed, s, Request(step), cfg))
  {
    StepKeepsValid(s.table, step, cfg);
    RequestEffect(s, step, cfg);
    var s' := Act(s, Request(step), cfg);
    if step.SaveStep? && Apply(s.table, step, cfg).error.None? {
      SaveDated(s.table, step.row, step.env, cfg, renewed);
      ClockDated(s, s', renewed, SavedUnder(s.table, step.row, step.env));
    } else {
      ShrunkDated(s, s', renewed);
    }
  }

  lemma FoundDated<K, D>(found: seq<Row<K, D>>, t: Table<K, D>, clock: int, column: int -> int)
    requires Answers(found, t, clock, column) && Truncates(column)
    ensures PhaseDated(Deleting(found), clock, map[])
  {
    forall i | 0 <= i < |found| ensures found[i].expiresAt < clock {
      assert Expired(found[i], clock, column);
      assert column(found[i].expiresAt) > found[i].expiresAt - SECOND;
    }
  }

  lemma OtherDated<K, D>(s: System<K, D>, a: Action<K, D>, cfg: Config<D>, renewed: map<string, int>)
    requires Inv(s) && Enabled(s, a, cfg) && RenewalsDated(s, renewed) && Truncates(cfg.column) && !a.Request?
    ensures Valid(Act(s, a, cfg).table) && RenewalsDated(Act(s, a, cfg), NextRenewed(renewed, s, a, cfg))
  {
    var s', renewed' := Act(s, a, cfg), NextRenewed(renewed, s, a, cfg);
    forall id | id in s'.prunes ensures PhaseDated(s'.prunes[id], s'.clock, renewed') {
      if a.FindRows? && a.id == id {
        FoundDated(a.found, s.table, s.clock, cfg.column);
      } else if s'.prunes[id].Deleting? {
        StillDeleting(s, a, cfg, id);
        assert PhaseDated(s.prunes[id], s.clock, renewed);
      }
    }
  }

  lemma {:induction false} HistoryDated<K, D>(h: seq<Action<K, D>>, cfg: Config<D>)
    requires History(h, cfg) && Truncates(cfg.column) && PositiveTtls(h)
    ensures RenewalsDated(At(h, cfg), Renewed(h, cfg))
    decreases |h|
  {
    if h != [] {
      var before, a := h[..|h| - 1], h[|h| - 1];
      assert PositiveTtls(before) by { assert forall i :: 0 <= i < |before| ==> before[i] == h[i]; }
      HistoryDated(before, cfg);
      if a.Request? {
        RequestDated(At(before, cfg), a.step, cfg, Renewed(before, cfg));
      } else {
        OtherDated(At(before, cfg), a, cfg, Renewed(before, cfg));
      }
    }
  }

  // ---------------------------------------------------------------- what a delete removes

  /** Row `i` of those found is the one stored under `g`. */
  ghost predicate FoundAs<K, D>(found: seq<Row<K, D>>, i: nat, g: string) {
    i < |found| && found[i].guid == g
  }

  /**
   A row that a prune deletes is the row its find returned, and expired even now, unless it was renewed
   in between: a prune takes a live row only by a renewal between its find and its delete.
   */
  lemma RemovedUnlessRenewed<K, D>(h: seq<Action<K, D>>, cfg: Config<D>, id: nat, g: string) returns (i: nat)
    requires History(h, cfg) && Enabled(At(h, cfg), DeleteRows(id, false), cfg)
    requires g in At(h, cfg).table && g !in Act(At(h, cfg), DeleteRows(id, false), cfg).table
    ensures FoundAs(At(h, cfg).prunes[id].found, i, g)
    ensures g !in Renewed(h, cfg) ==>
              && At(h, cfg).table[g] == At(h, cfg).prunes[id].found[i]
              && Expired(At(h, cfg).table[g], At(h, cfg).clock, cfg.column)
  {
    var found := At(h, cfg).prunes[id].found;
    PaddingIsHarmless(At(h, cfg).table, found);
    i :| 0 <= i < |found| && found[i].guid == g;
    HistoryUntouched(h, cfg);
    assert Untouched(At(h, cfg).prunes[id], At(h, cfg).table, At(h, cfg).clock, Renewed(h, cfg), cfg.column);
  }

  /**
   Exactly so, where the column loses less than a second and ttls are positive: a deleted row is the row
   found if and only if it was not renewed. A renewed one was renewed after the found row had expired,
   for its whole ttl, and until that is over the delete takes a row no find would.
   */
  lemma RemovedIffNotRenewed<K, D>(h: seq<Action<K, D>>, cfg: Config<D>, id: nat, g: string) returns (i: nat)
    requires History(h, cfg) && Enabled(At(h, cfg), DeleteRows(id, false), cfg)
    requires g in At(h, cfg).table && g !in Act(At(h, cfg), DeleteRows(id, false), cfg).table
    requires Truncates(cfg.column) && PositiveTtls(h)
    ensures FoundAs(At(h, cfg).prunes[id].found, i, g)
    ensures var row, found, renewed := At(h, cfg).table[g], At(h, cfg).prunes[id].found[i], Renewed(h, cfg);
            && (row == found <==> g !in renewed)
            && (g !in renewed ==> Expired(row, At(h, cfg).clock, cfg.column))
            && (g in renewed ==>
                  && found.expiresAt < renewed[g] <= At(h, cfg).clock
                  && row.expiresAt == renewed[g] + row.ttl.value * SECOND && 0 < row.ttl.value
                  && (At(h, cfg).clock <= row.expiresAt ==> !Expired(row, At(h, cfg).clock, cfg.column)))
  {
    i := RemovedUnlessRenewed(h, cfg, id, g);
    HistoryDated(h, cfg);
    assert PhaseDated(At(h, cfg).prunes[id], At(h, cfg).clock, Renewed(h, cfg));
    assert cfg.column(At(h, cfg).table[g].expiresAt) > At(h, cfg).table[g].expiresAt - SECOND;
  }
}
