/** What every interleaving of a prune with saves and deletes guarantees, and exactly what it costs. */
module PruneHistory {
  import opened RouteTable
  import opened RouteHistory
  import opened PruneInterleaving

  lemma Extended<K, D>(h: seq<Action<K, D>>, cfg: Config<D>, a: Action<K, D>)
    requires History(h, cfg) && Enabled(At(h, cfg), a, cfg)
    ensures History(h + [a], cfg) && At(h + [a], cfg) == Act(At(h, cfg), a, cfg)
  {
    assert (h + [a])[..|h + [a]| - 1] == h;
  }

  /** Never two prunes at once. */
  lemma SingleFlight<K, D>(h: seq<Action<K, D>>, cfg: Config<D>)
    requires History(h, cfg)
    ensures |At(h, cfg).prunes| <= 1
    ensures At(h, cfg).inFlight == |At(h, cfg).prunes|
  {
    var s := At(h, cfg);
    if id :| id in s.prunes {
      assert s.prunes.Keys == {id};
      assert |s.prunes.Keys| == 1;
    }
  }

  // ---------------------------------------------------------------- what a prune may remove

  /** Once a guid was issued, a row still stored under it was stored all along, under the same key. */
  lemma {:induction false} StoredAllAlong<K, D>(h: seq<Action<K, D>>, cfg: Config<D>, j: nat, g: string)
    requires History(h, cfg) && j <= |h| && History(h[..j], cfg)
    requires g in At(h[..j], cfg).issued && g in At(h, cfg).table
    ensures g in At(h[..j], cfg).table && At(h[..j], cfg).table[g].key == At(h, cfg).table[g].key
    decreases |h|
  {
    if j == |h| {
      assert h[..j] == h;
    } else {
      var before := h[..|h| - 1];
      assert before[..j] == h[..j];
      IssuedGrows(before, cfg, j);
      StoredBefore(At(before, cfg), h[|h| - 1], cfg, g);
      StoredAllAlong(before, cfg, j, g);
    }
  }

  lemma {:induction false} IssuedGrows<K, D>(h: seq<Action<K, D>>, cfg: Config<D>, j: nat)
    requires History(h, cfg) && j <= |h| && History(h[..j], cfg)
    ensures At(h[..j], cfg).issued <= At(h, cfg).issued
    decreases |h|
  {
    if j == |h| {
      assert h[..j] == h;
    } else {
      assert h[..|h| - 1][..j] == h[..j];
      IssuedGrows(h[..|h| - 1], cfg, j);
      ActIssues(At(h[..|h| - 1], cfg), h[|h| - 1], cfg);
    }
  }

  lemma ActIssues<K, D>(s: System<K, D>, a: Action<K, D>, cfg: Config<D>)
    requires Inv(s) && Enabled(s, a, cfg)
    ensures s.issued <= Act(s, a, cfg).issued
  {
  }

  lemma StoredBefore<K, D>(s: System<K, D>, a: Action<K, D>, cfg: Config<D>, g: string)
    requires Inv(s) && Enabled(s, a, cfg)
    requires g in s.issued && g in Act(s, a, cfg).table
    ensures g in s.table && s.table[g].key == Act(s, a, cfg).table[g].key
  {
    if a.Request? { StepKeepsValid(s.table, a.step, cfg); }
  }

  lemma StillDeleting<K, D>(s: System<K, D>, a: Action<K, D>, cfg: Config<D>, id: nat)
    requires Inv(s) && Enabled(s, a, cfg) && !(a.FindRows? && a.id == id)
    requires id in Act(s, a, cfg).prunes && Act(s, a, cfg).prunes[id].Deleting?
    ensures id in s.prunes && s.prunes[id] == Act(s, a, cfg).prunes[id]
  {
  }

  /** Action `j` is the last find of goroutine `id`, and returned `found`. */
  ghost predicate LastFind<K, D>(h: seq<Action<K, D>>, id: nat, found: seq<Row<K, D>>, j: nat) {
    && j < |h| && h[j] == FindRows(id, found, false)
    && forall k :: j < k < |h| && h[k].FindRows? ==> h[k].id != id
  }

  /** The rows a goroutine is about to delete are those its last find, at `j`, returned. */
  lemma {:induction false} FoundEarlier<K, D>(h: seq<Action<K, D>>, cfg: Config<D>, id: nat) returns (j: nat)
    requires History(h, cfg)
    requires id in At(h, cfg).prunes && At(h, cfg).prunes[id].Deleting?
    ensures LastFind(h, id, At(h, cfg).prunes[id].found, j) && History(h[..j], cfg)
    ensures Answers(At(h, cfg).prunes[id].found, At(h[..j], cfg).table, At(h[..j], cfg).clock, cfg.column)
    decreases |h|
  {
    var before, a := h[..|h| - 1], h[|h| - 1];
    if a.FindRows? && a.id == id {
      j := |h| - 1;
    } else {
      StillDeleting(At(before, cfg), a, cfg, id);
      j := FoundEarlier(before, cfg, id);
      assert before[..j] == h[..j];
      assert h[j] == before[j];
      forall k | j < k < |h| && h[k].FindRows? ensures h[k].id != id {
        if k < |before| { assert h[k] == before[k]; }
      }
    }
  }

  /**
   Row `g` was stored, under the key it has at the end of `h`, and expired, when goroutine `id` last ran its
   find, at `j`.
   */
  ghost predicate ExpiredAtFind<K, D>(h: seq<Action<K, D>>, cfg: Config<D>, id: nat, g: string, j: nat)
    requires History(h, cfg) && id in At(h, cfg).prunes && At(h, cfg).prunes[id].Deleting? && g in At(h, cfg).table
  {
    && LastFind(h, id, At(h, cfg).prunes[id].found, j) && History(h[..j], cfg)
    && g in At(h[..j], cfg).table
    && At(h[..j], cfg).table[g].key == At(h, cfg).table[g].key
    && Expired(At(h[..j], cfg).table[g], At(h[..j], cfg).clock, cfg.column)
  }

  /**
   Whatever happened between a prune's find and its delete, every row the delete removes was
   stored and expired when the find ran; in particular none was created after it.
   */
  lemma RemovedWasExpired<K, D>(h: seq<Action<K, D>>, cfg: Config<D>, id: nat, g: string)
    requires History(h, cfg) && Enabled(At(h, cfg), DeleteRows(id, false), cfg)
    requires g in At(h, cfg).table && g !in Act(At(h, cfg), DeleteRows(id, false), cfg).table
    ensures exists j :: ExpiredAtFind(h, cfg, id, g, j)
  {
    var found := At(h, cfg).prunes[id].found;
    PaddingIsHarmless(At(h, cfg).table, found);
    var j := FoundEarlier(h, cfg, id);
    var i :| 0 <= i < |found| && found[i].guid == g;
    StoredAllAlong(h, cfg, j, g);
    assert ExpiredAtFind(h, cfg, id, g, j);
  }

  // ---------------------------------------------------------------- the gauge

  /** How many of the rows found a delete no longer affected: their removal will be counted twice. */
  ghost function Missed<K, D>(s: System<K, D>, a: Action<K, D>): int {
    if a.DeleteRows? && !a.fails && a.id in s.prunes && s.prunes[a.id].Deleting? then
      |s.prunes[a.id].found| - |s.table.Keys * GuidsOf(s.prunes[a.id].found)|
    else 0
  }

  /** The rows missed over a whole history. */
  ghost function Drift<K, D>(h: seq<Action<K, D>>, cfg: Config<D>): int
    requires History(h, cfg)
    decreases |h|
  {
    if h == [] then 0
    else Drift(h[..|h| - 1], cfg) + Missed(At(h[..|h| - 1], cfg), h[|h| - 1])
  }

  /** Every delete of the history affected as many rows as its find had returned. */
  ghost predicate EveryDeleteMatched<K, D>(h: seq<Action<K, D>>, cfg: Config<D>)
    requires History(h, cfg)
    decreases |h|
  {
    h == [] ||
    (EveryDeleteMatched(h[..|h| - 1], cfg) && Missed(At(h[..|h| - 1], cfg), h[|h| - 1]) == 0)
  }

  lemma MissedIsNat<K, D>(s: System<K, D>, a: Action<K, D>)
    requires Inv(s)
    ensures Missed(s, a) >= 0
  {
    if a.DeleteRows? && !a.fails && a.id in s.prunes && s.prunes[a.id].Deleting? {
      assert PhaseOk(s.prunes[a.id], s.issued, s.table);
      var guids := GuidsOf(s.prunes[a.id].found);
      GuidCount(s.prunes[a.id].found);
      assert guids == s.table.Keys * guids + (guids - s.table.Keys);
    }
  }

  /** Expiry events a goroutine has still to emit. */
  ghost function Unreported<K, D>(phase: Phase<K, D>): int {
    if phase.Emitting? then |phase.found| - phase.next else 0
  }

  ghost function Pending<K, D>(s: System<K, D>): int {
    if id :| id in s.prunes then Unreported(s.prunes[id]) else 0
  }

  lemma PendingIs<K, D>(s: System<K, D>, id: nat)
    requires id in s.prunes && forall j :: j in s.prunes ==> j == id
    ensures Pending(s) == Unreported(s.prunes[id])
  {
  }

  lemma RequestCounted<K, D>(s: System<K, D>, step: Step<K, D>, cfg: Config<D>)
    requires Inv(s) && Enabled(s, Request(step), cfg)
    ensures var s' := Act(s, Request(step), cfg);
            GaugeSum(s'.log) - GaugeSum(s.log) == |s'.table| - |s.table| && Pending(s') == Pending(s)
  {
    StepCounted(s.table, step, cfg);
    GaugeConcat(s.log, Apply(s.table, step, cfg).events);
    var s' := Act(s, Request(step), cfg);
    if id :| id in s.prunes {
      PendingIs(s, id);
      PendingIs(s', id);
    }
  }

  lemma DeleteCounted<K, D>(s: System<K, D>, id: nat, cfg: Config<D>)
    requires Inv(s) && Enabled(s, DeleteRows(id, false), cfg)
    ensures var s' := Act(s, DeleteRows(id, false), cfg);
            0 == |s'.table| - |s.table| + Pending(s') - Pending(s) - Missed(s, DeleteRows(id, false))
  {
    PendingIs(s, id);
    PendingIs(Act(s, DeleteRows(id, false), cfg), id);
    PaddingIsHarmless(s.table, s.prunes[id].found);
    RemovedCount(s.table, GuidsOf(s.prunes[id].found));
  }

  lemma EmitCounted<K, D>(s: System<K, D>, id: nat, cfg: Config<D>)
    requires Inv(s) && Enabled(s, EmitExpiry(id), cfg)
    ensures var s' := Act(s, EmitExpiry(id), cfg);
            GaugeSum(s'.log) - GaugeSum(s.log) == -1 && Pending(s') == Pending(s) - 1
  {
    PendingIs(s, id);
    PendingIs(Act(s, EmitExpiry(id), cfg), id);
    GaugeConcat(s.log, [Event(ExpireEvent, Show(s.prunes[id].found[s.prunes[id].next]))]);
  }

  lemma QuietCounted<K, D>(s: System<K, D>, a: Action<K, D>, cfg: Config<D>)
    requires Inv(s) && Enabled(s, a, cfg)
    requires a.Advance? || a.Tick? || a.FindRows? || a.Return? || (a.DeleteRows? && a.fails)
    ensures var s' := Act(s, a, cfg);
            s'.log == s.log && s'.table == s.table && Pending(s') == Pending(s)
  {
    var s' := Act(s, a, cfg);
    if id :| id in s.prunes { PendingIs(s, id); }
    if id :| id in s'.prunes { PendingIs(s', id); }
  }

  lemma ActCounted<K, D>(s: System<K, D>, a: Action<K, D>, cfg: Config<D>)
    requires Inv(s) && Enabled(s, a, cfg)
    ensures var s' := Act(s, a, cfg);
            GaugeSum(s'.log) - GaugeSum(s.log)
              == |s'.table| - |s.table| + Pending(s') - Pending(s) - Missed(s, a)
  {
    if a.Request? {
      RequestCounted(s, a.step, cfg);
    } else if a.DeleteRows? && !a.fails {
      DeleteCounted(s, a.id, cfg);
    } else if a.EmitExpiry? {
      EmitCounted(s, a.id, cfg);
    } else {
      QuietCounted(s, a, cfg);
    }
  }

  /** In every interleaving the gauge is the row count, plus the expiries not yet reported, minus the drift. */
  lemma {:induction false} GaugeDrift<K, D>(h: seq<Action<K, D>>, cfg: Config<D>)
    requires History(h, cfg)
    ensures GaugeSum(At(h, cfg).log) == |At(h, cfg).table| + Pending(At(h, cfg)) - Drift(h, cfg)
    decreases |h|
  {
    if h != [] {
      var before := h[..|h| - 1];
      GaugeDrift(before, cfg);
      ActCounted(At(before, cfg), h[|h| - 1], cfg);
    }
  }

  /** Between prunes the gauge is right exactly when every delete so far affected as many rows as its find returned. */
  lemma GaugeRightIff<K, D>(h: seq<Action<K, D>>, cfg: Config<D>)
    requires History(h, cfg) && At(h, cfg).prunes == map[]
    ensures GaugeSum(At(h, cfg).log) == |At(h, cfg).table|
       <==> EveryDeleteMatched(h, cfg)
  {
    GaugeDrift(h, cfg);
    DriftIsZero(h, cfg);
  }

  lemma {:induction false} DriftIsZero<K, D>(h: seq<Action<K, D>>, cfg: Config<D>)
    requires History(h, cfg)
    ensures Drift(h, cfg) >= 0
    ensures Drift(h, cfg) == 0 <==> EveryDeleteMatched(h, cfg)
    decreases |h|
  {
    if h != [] {
      DriftIsZero(h[..|h| - 1], cfg);
      MissedIsNat(At(h[..|h| - 1], cfg), h[|h| - 1]);
    }
  }
}
