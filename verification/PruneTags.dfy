/** What a router with the documented tag rules holds when prunes interleave with saves and deletes. */
module PruneTags {
  import opened Common
  import opened ModificationTags
  import opened RouteTable
  import opened RowLife
  import opened TaggedRouter
  import opened PruneInterleaving
  import opened PruneReplay

  // ---------------------------------------------------------------- the keys it gets wrong

  /** Row `i` of those found is still stored, but with another tag: it has been renewed since. */
  ghost predicate Overtaken<K, D>(found: seq<Row<K, D>>, t: Table<K, D>, i: nat) {
    i < |found| && found[i].guid in t && t[found[i].guid].tag != found[i].tag
  }

  /**
   The deleted keys such a router still holds: a row deleted with a newer tag than the one found is
   reported with the older tag, and the router refuses that report, until the key is next created.
   */
  ghost function NextStray<K, D>(stray: set<K>, s: System<K, D>, a: Action<K, D>, cfg: Config<D>): set<K>
    requires Inv(s) && Enabled(s, a, cfg)
  {
    match a
    case Request(SaveStep(row, env)) =>
      if Save(s.table, row, env, cfg).error.Some? then stray else stray - {row.key}
    case DeleteRows(id, fails) =>
      if fails then stray else
      var found := s.prunes[id].found;
      stray + set i | 0 <= i < |found| && Overtaken(found, s.table, i) :: found[i].key
    case _ => stray
  }

  ghost function Stray<K, D>(h: seq<Action<K, D>>, cfg: Config<D>): set<K>
    requires History(h, cfg)
    decreases |h|
  {
    if h == [] then {}
    else NextStray(Stray(h[..|h| - 1], cfg), At(h[..|h| - 1], cfg), h[|h| - 1], cfg)
  }

  // ---------------------------------------------------------------- what uuids and indices promise

  ghost function TagsOf<K, D>(log: seq<Event<K, D>>): set<string> {
    set i | 0 <= i < |log| :: log[i].value.tag.guid
  }

  /** An upsert of `k` brings a tag guid that no event has carried, and does not make the index wrap. */
  ghost predicate OrderlyStep<K, D>(s: System<K, D>, step: Step<K, D>, cfg: Config<D>, k: K)
    requires Inv(s)
  {
    && !Wraps(s.table, step, cfg, k)
    && (step.SaveStep? && step.row.key == k && step.env.tagGuid.Some? ==> step.env.tagGuid.value !in TagsOf(s.log))
  }

  ghost predicate Orderly<K, D>(h: seq<Action<K, D>>, cfg: Config<D>, k: K)
    requires History(h, cfg)
    decreases |h|
  {
    h == [] ||
    var a := h[|h| - 1];
    Orderly(h[..|h| - 1], cfg, k) && (a.Request? ==> OrderlyStep(At(h[..|h| - 1], cfg), a.step, cfg, k))
  }

  // ---------------------------------------------------------------- one key

  /** The row stored under `k`. */
  ghost function Stored<K, D>(t: Table<K, D>, k: K): Option<Row<K, D>> {
    var h := Holder(t, k);
    if h.Some? then Some(t[h.value]) else None
  }

  /** Where the one running prune is; `Finding` stands for none as well. */
  ghost function PhaseOf<K, D>(s: System<K, D>): Phase<K, D> {
    if id :| id in s.prunes then s.prunes[id] else Finding
  }

  /**
   The router holds the stored row, or nothing if the key is lost; it holds no deleted one unless it is stray or
   awaited.
   */
  ghost predicate InTouch<K, D>(row: Option<Row<K, D>>, held: Option<Visible<K, D>>, used: set<string>,
                                lost: bool, stray: bool)
  {
    && (row.Some? ==> row.value.tag.guid != "" && row.value.tag.guid in used && !stray
                      && held == if lost then None else Some(Show(row.value)))
    && (row.None? ==> !lost && (stray ==> held.Some?))
    && (held.Some? ==> held.value.tag.guid != "" && held.value.tag.guid in used)
  }

  /** A stored row of the key is the one found, perhaps renewed, or was created under another tag guid. */
  ghost predicate FoundInTouch<K, D>(f: Row<K, D>, row: Option<Row<K, D>>, used: set<string>, lost: bool, stray: bool) {
    && f.tag.guid != "" && f.tag.guid in used && !stray
    && (row.Some? ==>
          if row.value.guid != f.guid then row.value.tag.guid != f.tag.guid
          else row.value.tag.guid == f.tag.guid && f.tag.index <= row.value.tag.index
               && (f.tag.index < row.value.tag.index ==> !lost))
  }

  /**
   A row about to be reported is not stored any more; what the router holds of it is newer exactly if the key is
   stray.
   */
  ghost predicate ReportInTouch<K, D>(f: Row<K, D>, row: Option<Row<K, D>>, held: Option<Visible<K, D>>,
                                      used: set<string>, stray: bool)
  {
    && f.tag.guid != "" && f.tag.guid in used
    && (row.Some? ==> row.value.tag.guid != f.tag.guid)
    && (row.None? && held.Some? ==>
          && held.value.tag.guid == f.tag.guid && f.tag.index <= held.value.tag.index
          && (stray <==> f.tag.index < held.value.tag.index))
  }

  ghost predicate Reported<K, D>(phase: Phase<K, D>, k: K) {
    phase.Emitting? ==> forall i :: phase.next <= i < |phase.found| ==> phase.found[i].key != k
  }

  ghost predicate PhaseInTouch<K, D>(phase: Phase<K, D>, row: Option<Row<K, D>>, held: Option<Visible<K, D>>,
                                     used: set<string>, lost: bool, stray: bool, k: K)
  {
    && (row.None? && held.Some? && Reported(phase, k) ==> stray)
    && match phase
       case Finding => true
       case Deleting(found) =>
         && (forall i, j :: 0 <= i < j < |found| && found[i].key == k ==> found[j].key != k)
         && (forall i :: 0 <= i < |found| && found[i].key == k ==> FoundInTouch(found[i], row, used, lost, stray))
       case Emitting(found, next) =>
         forall i :: next <= i < |found| && found[i].key == k ==> ReportInTouch(found[i], row, held, used, stray)
  }

  ghost predicate KeyInTouch<K, D>(s: System<K, D>, held: Option<Visible<K, D>>, lost: set<K>, stray: set<K>, k: K) {
    && InTouch(Stored(s.table, k), held, TagsOf(s.log), k in lost, k in stray)
    && PhaseInTouch(PhaseOf(s), Stored(s.table, k), held, TagsOf(s.log), k in lost, k in stray, k)
  }

  lemma PhaseIs<K, D>(s: System<K, D>, id: nat)
    requires Inv(s) && id in s.prunes
    ensures PhaseOf(s) == s.prunes[id]
  {
  }

  lemma TagsGrow<K, D>(log: seq<Event<K, D>>, e: Event<K, D>)
    ensures TagsOf(log + [e]) == TagsOf(log) + {e.value.tag.guid}
  {
    var log' := log + [e];
    assert log'[|log|] == e;
    forall x | x in TagsOf(log) ensures x in TagsOf(log') {
      var i :| 0 <= i < |log| && log[i].value.tag.guid == x;
      assert log'[i] == log[i];
    }
  }

  /** The log's tags only matter by growing. */
  lemma MoreTags<K, D>(phase: Phase<K, D>, row: Option<Row<K, D>>, held: Option<Visible<K, D>>, used: set<string>,
                       used': set<string>, lost: bool, stray: bool, k: K)
    requires InTouch(row, held, used, lost, stray) && PhaseInTouch(phase, row, held, used, lost, stray, k)
    requires used <= used'
    ensures InTouch(row, held, used', lost, stray) && PhaseInTouch(phase, row, held, used', lost, stray, k)
  {
  }

  // ---------------------------------------------------------------- requests

  /** An upsert puts the router in touch, whatever it held. */
  lemma UpsertInTouch<K, D>(phase: Phase<K, D>, row: Option<Row<K, D>>, held: Option<Visible<K, D>>, used: set<string>,
                            lost: bool, stray: bool, k: K, row': Row<K, D>, kind: EventType)
    requires InTouch(row, held, used, lost, stray) && PhaseInTouch(phase, row, held, used, lost, stray, k)
    requires row'.key == k && (kind == CreateEvent || kind == UpdateEvent)
    requires row.Some? ==> row'.guid == row.value.guid && row'.tag == row.value.tag.Increment()
                           && row.value.tag.index < INDEX_LIMIT - 1
    requires row.None? ==> row'.tag.guid != "" && row'.tag.guid !in used
                           && (phase.Deleting? ==> row'.guid !in GuidsOf(phase.found))
    ensures FollowTags(held, Event(kind, Show(row')), k) == Some(Show(row'))
    ensures var used' := used + {row'.tag.guid};
            InTouch(Some(row'), Some(Show(row')), used', false, false)
            && PhaseInTouch(phase, Some(row'), Some(Show(row')), used', false, false, k)
  {
    if row.Some? { assert row'.tag.index == row.value.tag.index + 1; }
    if phase.Deleting? {
      forall i | 0 <= i < |phase.found| && phase.found[i].key == k
        ensures FoundInTouch(phase.found[i], Some(row'), used + {row'.tag.guid}, false, false)
      {
        assert phase.found[i].guid in GuidsOf(phase.found);
      }
    }
  }

  lemma SaveStored<K, D>(t: Table<K, D>, row: Row<K, D>, env: SaveEnv, cfg: Config<D>, k: K)
    requires Valid(t) && Possible(t, SaveStep(row, env), cfg) && Save(t, row, env, cfg).error.None?
    ensures var e := Save(t, row, env, cfg);
            Stored(e.table, k) == if k == row.key then Some(e.table[SavedUnder(t, row, env)]) else Stored(t, k)
  {
    var e := Save(t, row, env, cfg);
    StepKeepsValid(t, SaveStep(row, env), cfg);
    SavePuts(t, row, env, cfg);
    PutHolder(t, e.table[SavedUnder(t, row, env)], k);
  }

  /** What an upsert does to the row of its key. */
  lemma SavedRow<K, D>(s: System<K, D>, row: Row<K, D>, env: SaveEnv, cfg: Config<D>)
    requires Inv(s) && Enabled(s, Request(SaveStep(row, env)), cfg) && Save(s.table, row, env, cfg).error.None?
    requires OrderlyStep(s, SaveStep(row, env), cfg, row.key)
    ensures var old' := Stored(s.table, row.key);
            var row' := Save(s.table, row, env, cfg).table[SavedUnder(s.table, row, env)];
            && row'.key == row.key
            && (old'.Some? ==> row'.guid == old'.value.guid && row'.tag == old'.value.tag.Increment()
                               && old'.value.tag.index < INDEX_LIMIT - 1)
            && (old'.None? ==> row'.tag.guid != "" && row'.tag.guid !in TagsOf(s.log)
                               && (PhaseOf(s).Deleting? ==> row'.guid !in GuidsOf(PhaseOf(s).found)))
  {
    SavePuts(s.table, row, env, cfg);
    if Stored(s.table, row.key).None? && PhaseOf(s).Deleting? {
      var id :| id in s.prunes;
      PhaseIs(s, id);
      assert PhaseOk(s.prunes[id], s.issued, s.table);
    }
  }

  lemma SamePhase<K, D>(s: System<K, D>, s': System<K, D>)
    requires s'.prunes == s.prunes && forall i, j :: i in s.prunes && j in s.prunes ==> i == j
    ensures PhaseOf(s') == PhaseOf(s)
  {
  }

  lemma FollowOne<K, D>(log: seq<Event<K, D>>, e: Event<K, D>, k: K)
    ensures FollowAll(None, log + [e], k) == FollowTags(FollowAll(None, log, k), e, k)
  {
    var held := FollowAll(None, log, k);
    FollowConcat(None, log, [e], k);
    assert FollowAll(held, [e], k) == FollowTags(held, e, k) by { assert [e][1..] == []; }
  }

  lemma SaveInTouch<K, D>(s: System<K, D>, row: Row<K, D>, env: SaveEnv, cfg: Config<D>,
                          held: Option<Visible<K, D>>, lost: set<K>, stray: set<K>, k: K)
    requires Inv(s) && Enabled(s, Request(SaveStep(row, env)), cfg) && OrderlyStep(s, SaveStep(row, env), cfg, k)
    requires Save(s.table, row, env, cfg).error.None? && KeyInTouch(s, held, lost, stray, k)
    ensures KeyInTouch(Act(s, Request(SaveStep(row, env)), cfg),
                       FollowTags(held, Save(s.table, row, env, cfg).events[0], k),
                       lost - {row.key}, stray - {row.key}, k)
  {
    var e := Save(s.table, row, env, cfg);
    var row' := e.table[SavedUnder(s.table, row, env)];
    RequestEffect(s, SaveStep(row, env), cfg);
    SamePhase(s, Act(s, Request(SaveStep(row, env)), cfg));
    SavePuts(s.table, row, env, cfg);
    SaveStored(s.table, row, env, cfg, k);
    TagsGrow(s.log, e.events[0]);
    if k == row.key {
      SavedRow(s, row, env, cfg);
      UpsertInTouch(PhaseOf(s), Stored(s.table, k), held, TagsOf(s.log), k in lost, k in stray, k, row',
                    e.events[0].kind);
    } else {
      MoreTags(PhaseOf(s), Stored(s.table, k), held, TagsOf(s.log), TagsOf(s.log + e.events), k in lost, k in stray, k);
    }
  }

  /** Dropping rows by guid: the row of `k` goes exactly if it is one of them. */
  lemma DropStored<K, D>(t: Table<K, D>, guids: set<string>, k: K)
    requires Valid(t)
    ensures Stored(t - guids, k) ==
            if Stored(t, k).Some? && Stored(t, k).value.guid in guids then None else Stored(t, k)
  {
    var t' := t - guids;
    if Holder(t, k).Some? && Holder(t, k).value !in guids {
      assert Holder(t, k).value in t';
      assert Holder(t', k) == Holder(t, k);
    }
  }

  lemma RemoveInTouch<K, D>(s: System<K, D>, step: Step<K, D>, cfg: Config<D>,
                            held: Option<Visible<K, D>>, lost: set<K>, stray: set<K>, k: K)
    requires Inv(s) && step.RemoveStep? && Enabled(s, Request(step), cfg) && Apply(s.table, step, cfg).error.None?
    requires KeyInTouch(s, held, lost, stray, k)
    ensures KeyInTouch(Act(s, Request(step), cfg), FollowTags(held, Apply(s.table, step, cfg).events[0], k),
                       lost - {step.key}, stray, k)
  {
    var e := Apply(s.table, step, cfg);
    var g := Holder(s.table, step.key).value;
    RequestEffect(s, step, cfg);
    SamePhase(s, Act(s, Request(step), cfg));
    DropStored(s.table, {g}, k);
    TagsGrow(s.log, e.events[0]);
    MoreTags(PhaseOf(s), Stored(s.table, k), held, TagsOf(s.log), TagsOf(s.log + e.events), k in lost, k in stray, k);
    assert k == step.key ==> Stored(s.table, k) == Some(s.table[g]);
  }

  lemma RequestInTouch<K, D>(s: System<K, D>, step: Step<K, D>, cfg: Config<D>,
                             held: Option<Visible<K, D>>, lost: set<K>, stray: set<K>, k: K)
    requires Inv(s) && Enabled(s, Request(step), cfg) && OrderlyStep(s, step, cfg, k)
             && KeyInTouch(s, held, lost, stray, k)
    requires held == FollowAll(None, s.log, k)
    ensures var s' := Act(s, Request(step), cfg);
            KeyInTouch(s', FollowAll(None, s'.log, k), NextLost(lost, s, Request(step), cfg),
                       NextStray(stray, s, Request(step), cfg), k)
  {
    var e := Apply(s.table, step, cfg);
    RequestEffect(s, step, cfg);
    if e.error.None? {
      FollowOne(s.log, e.events[0], k);
      assert e.events == [e.events[0]];
      if step.SaveStep? {
        SaveInTouch(s, step.row, step.env, cfg, held, lost, stray, k);
      } else {
        RemoveInTouch(s, step, cfg, held, lost, stray, k);
      }
    } else {
      SamePhase(s, Act(s, Request(step), cfg));
    }
  }

  // ---------------------------------------------------------------- the prune's steps

  /** What the find returns is what is stored, so its keys are distinct. */
  lemma FindInTouch<K, D>(found: seq<Row<K, D>>, t: Table<K, D>, now: int, column: int -> int,
                          held: Option<Visible<K, D>>, used: set<string>, lost: bool, stray: bool, k: K)
    requires Valid(t) && Answers(found, t, now, column) && InTouch(Stored(t, k), held, used, lost, stray)
    requires Stored(t, k).None? && held.Some? ==> stray
    ensures PhaseInTouch(Deleting(found), Stored(t, k), held, used, lost, stray, k)
  {
    forall i | 0 <= i < |found| && found[i].key == k ensures Stored(t, k) == Some(found[i]) {
      assert found[i].guid in t && t[found[i].guid] == found[i];
    }
  }

  /**
   The delete takes the row exactly if it is still the one found, and makes the key stray exactly if it was
   renewed.
   */
  lemma DeletedInTouch<K, D>(found: seq<Row<K, D>>, row: Option<Row<K, D>>, held: Option<Visible<K, D>>,
                             used: set<string>, lost: bool, stray: bool, k: K, overtaken: bool)
    requires InTouch(row, held, used, lost, stray) && PhaseInTouch(Deleting(found), row, held, used, lost, stray, k)
    requires row.Some? ==> row.value.key == k
    requires row.Some? && row.value.guid in GuidsOf(found) ==>
               exists i :: 0 <= i < |found| && found[i].guid == row.value.guid && found[i].key == k
    requires overtaken <==> row.Some? && exists i :: 0 <= i < |found| && found[i].guid == row.value.guid
                                                     && found[i].key == k && found[i].tag != row.value.tag
    ensures var row' := if row.Some? && row.value.guid in GuidsOf(found) then None else row;
            && InTouch(row', held, used, lost && row'.Some?, stray || overtaken)
            && PhaseInTouch(Emitting(found, 0), row', held, used, lost && row'.Some?, stray || overtaken, k)
  {
    if row.Some? && row.value.guid in GuidsOf(found) {
      var i :| 0 <= i < |found| && found[i].guid == row.value.guid && found[i].key == k;
      assert FoundInTouch(found[i], row, used, lost, stray);
      assert overtaken <==> found[i].tag != row.value.tag;
    } else if row.Some? {
      forall i | 0 <= i < |found| && found[i].key == k ensures found[i].guid != row.value.guid {
        assert found[i].guid in GuidsOf(found);
      }
    }
  }

  lemma OvertakenAt<K, D>(found: seq<Row<K, D>>, t: Table<K, D>, i: nat, k: K)
    requires Valid(t) && i < |found|
    requires found[i].guid in t ==> t[found[i].guid].key == found[i].key
    ensures found[i].key == k && Overtaken(found, t, i) <==>
            found[i].key == k && Stored(t, k).Some? && Stored(t, k).value.guid == found[i].guid
            && Stored(t, k).value.tag != found[i].tag
  {
    if found[i].key == k && found[i].guid in t { assert Holder(t, k) == Some(found[i].guid); }
  }

  lemma DeleteInTouch<K, D>(s: System<K, D>, id: nat, cfg: Config<D>,
                            held: Option<Visible<K, D>>, lost: set<K>, stray: set<K>, k: K)
    requires Inv(s) && Enabled(s, DeleteRows(id, false), cfg) && KeyInTouch(s, held, lost, stray, k)
    ensures KeyInTouch(Act(s, DeleteRows(id, false), cfg), held, NextLost(lost, s, DeleteRows(id, false), cfg),
                       NextStray(stray, s, DeleteRows(id, false), cfg), k)
  {
    var a := DeleteRows(id, false);
    var s', found := Act(s, a, cfg), s.prunes[id].found;
    var row := Stored(s.table, k);
    assert PhaseOk(s.prunes[id], s.issued, s.table);
    ActKeepsInv(s, a, cfg);
    PhaseIs(s, id);
    PhaseIs(s', id);
    PaddingIsHarmless(s.table, found);
    DropStored(s.table, GuidsOf(found), k);
    forall i | 0 <= i < |found|
      ensures found[i].key == k && Overtaken(found, s.table, i) <==>
              found[i].key == k && row.Some? && row.value.guid == found[i].guid && row.value.tag != found[i].tag
    {
      OvertakenAt(found, s.table, i, k);
    }
    DeletedInTouch(found, row, held, TagsOf(s.log), k in lost, k in stray, k,
                   exists i :: 0 <= i < |found| && Overtaken(found, s.table, i) && found[i].key == k);
  }

  /** A report drops a row created since, and else exactly the version it carries or an older one. */
  lemma EmittedInTouch<K, D>(found: seq<Row<K, D>>, next: nat, row: Option<Row<K, D>>, held: Option<Visible<K, D>>,
                             used: set<string>, lost: bool, stray: bool, k: K)
    requires InTouch(row, held, used, lost, stray) && next < |found|
    requires PhaseInTouch(Emitting(found, next), row, held, used, lost, stray, k)
    ensures var held', lost' := FollowTags(held, Event(ExpireEvent, Show(found[next])), k),
                                lost || (found[next].key == k && row.Some?);
            && InTouch(row, held', used, lost', stray)
            && PhaseInTouch(Emitting(found, next + 1), row, held', used, lost', stray, k)
  {
    if found[next].key == k {
      assert ReportInTouch(found[next], row, held, used, stray);
    }
  }

  lemma EmitInTouch<K, D>(s: System<K, D>, id: nat, cfg: Config<D>, lost: set<K>, stray: set<K>, k: K)
    requires Inv(s) && Enabled(s, EmitExpiry(id), cfg) && KeyInTouch(s, FollowAll(None, s.log, k), lost, stray, k)
    ensures var s' := Act(s, EmitExpiry(id), cfg);
            KeyInTouch(s', FollowAll(None, s'.log, k), NextLost(lost, s, EmitExpiry(id), cfg),
                       NextStray(stray, s, EmitExpiry(id), cfg), k)
  {
    var s' := Act(s, EmitExpiry(id), cfg);
    var Emitting(found, next) := s.prunes[id];
    var e := Event(ExpireEvent, Show(found[next]));
    var held, row := FollowAll(None, s.log, k), Stored(s.table, k);
    ActKeepsInv(s, EmitExpiry(id), cfg);
    PhaseIs(s, id);
    PhaseIs(s', id);
    FollowOne(s.log, e, k);
    TagsGrow(s.log, e);
    EmittedInTouch(found, next, row, held, TagsOf(s.log), k in lost, k in stray, k);
    MoreTags(PhaseOf(s'), row, FollowTags(held, e, k), TagsOf(s.log), TagsOf(s'.log),
             k in lost || (found[next].key == k && row.Some?), k in stray, k);
  }

  lemma QuietInTouch<K, D>(s: System<K, D>, a: Action<K, D>, cfg: Config<D>,
                           held: Option<Visible<K, D>>, lost: set<K>, stray: set<K>, k: K)
    requires Inv(s) && Enabled(s, a, cfg) && KeyInTouch(s, held, lost, stray, k)
    requires a.Advance? || a.Tick? || a.FindRows? || a.Return? || (a.DeleteRows? && a.fails)
    ensures KeyInTouch(Act(s, a, cfg), held, lost, stray, k)
  {
    var s' := Act(s, a, cfg);
    ActKeepsInv(s, a, cfg);
    if id :| id in s.prunes { PhaseIs(s, id); }
    if id :| id in s'.prunes { PhaseIs(s', id); }
    if a.FindRows? && !a.fails {
      PhaseIs(s, a.id);
      PhaseIs(s', a.id);
      FindInTouch(a.found, s.table, s.clock, cfg.column, held, TagsOf(s.log), k in lost, k in stray, k);
    }
  }

  // ---------------------------------------------------------------- every interleaving

  lemma {:induction false} HistoryInTouch<K, D>(h: seq<Action<K, D>>, cfg: Config<D>, k: K)
    requires History(h, cfg) && Orderly(h, cfg, k)
    ensures KeyInTouch(At(h, cfg), FollowAll(None, At(h, cfg).log, k), Lost(h, cfg), Stray(h, cfg), k)
    decreases |h|
  {
    if h != [] {
      var before, a := h[..|h| - 1], h[|h| - 1];
      var s, lost, stray := At(before, cfg), Lost(before, cfg), Stray(before, cfg);
      HistoryInTouch(before, cfg, k);
      if a.Request? {
        RequestInTouch(s, a.step, cfg, FollowAll(None, s.log, k), lost, stray, k);
      } else if a.DeleteRows? && !a.fails {
        DeleteInTouch(s, a.id, cfg, FollowAll(None, s.log, k), lost, stray, k);
      } else if a.EmitExpiry? {
        EmitInTouch(s, a.id, cfg, lost, stray, k);
      } else {
        QuietInTouch(s, a, cfg, FollowAll(None, s.log, k), lost, stray, k);
      }
    }
  }

  /**
   In every interleaving in which no index wraps, a router with the tag rules lacks exactly the lost
   keys among the stored ones, holds every stray key although it is deleted, and besides that holds
   what is stored, up to expiries still to be reported.
   */
  lemma TagsFollow<K, D>(h: seq<Action<K, D>>, cfg: Config<D>, k: K)
    requires History(h, cfg) && Orderly(h, cfg, k)
    ensures var held, s := FollowAll(None, At(h, cfg).log, k), At(h, cfg);
            && (k in Lost(h, cfg) ==> Holds(s.table, k) && held == None)
            && (k in Stray(h, cfg) ==> !Holds(s.table, k) && held.Some?)
            && (k !in Lost(h, cfg) && k !in Stray(h, cfg) && !Awaited(s, k) ==> held == Expected(s.table, k))
  {
    HistoryInTouch(h, cfg, k);
    var s := At(h, cfg);
    if !Awaited(s, k) {
      if id :| id in s.prunes { PhaseIs(s, id); }
      assert Reported(PhaseOf(s), k);
    }
  }

  /** Between prunes such a router is right about a key exactly when the key is neither lost nor stray. */
  lemma TagsRightIff<K, D>(h: seq<Action<K, D>>, cfg: Config<D>, k: K)
    requires History(h, cfg) && Orderly(h, cfg, k) && At(h, cfg).prunes == map[]
    ensures FollowAll(None, At(h, cfg).log, k) == Expected(At(h, cfg).table, k)
       <==> k !in Lost(h, cfg) && k !in Stray(h, cfg)
  {
    TagsFollow(h, cfg, k);
  }

  /** And about the whole table exactly when no key is either. */
  lemma RouterRightIff<K(!new), D>(h: seq<Action<K, D>>, cfg: Config<D>)
    requires History(h, cfg) && (forall k :: Orderly(h, cfg, k)) && At(h, cfg).prunes == map[]
    ensures (forall k :: FollowAll(None, At(h, cfg).log, k) == Expected(At(h, cfg).table, k))
       <==> Lost(h, cfg) == {} && Stray(h, cfg) == {}
  {
    forall k
      ensures FollowAll(None, At(h, cfg).log, k) == Expected(At(h, cfg).table, k)
         <==> k !in Lost(h, cfg) && k !in Stray(h, cfg)
    {
      TagsRightIff(h, cfg, k);
    }
  }
}
