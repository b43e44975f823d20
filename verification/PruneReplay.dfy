/** What a subscriber's view looks like when prunes interleave with saves and deletes. */
module PruneReplay {
  import opened RouteTable
  import opened RouteHistory
  import opened PruneInterleaving

  /** A goroutine has deleted a row of key `k` and not reported it yet. */
  ghost predicate Awaited<K, D>(s: System<K, D>, k: K) {
    exists id, i :: id in s.prunes && s.prunes[id].Emitting? && s.prunes[id].next <= i < |s.prunes[id].found|
                 && s.prunes[id].found[i].key == k
  }

  /**
   The stored keys a subscriber does not have: an expiry is reported by key, so reporting one for a
   key that has been created again meanwhile makes the subscriber drop the new row, until its next upsert.
   */
  ghost function NextLost<K, D>(lost: set<K>, s: System<K, D>, a: Action<K, D>, cfg: Config<D>): set<K>
    requires Inv(s) && Enabled(s, a, cfg)
  {
    match a
    case Request(step) =>
      if Apply(s.table, step, cfg).error.Some? then lost
      else if step.SaveStep? then lost - {step.row.key} else lost - {step.key}
    case DeleteRows(id, fails) => if fails then lost else set k | k in lost && Holds(Act(s, a, cfg).table, k)
    case EmitExpiry(id) =>
      var k := s.prunes[id].found[s.prunes[id].next].key;
      if Holds(s.table, k) then lost + {k} else lost
    case _ => lost
  }

  ghost function Lost<K, D>(h: seq<Action<K, D>>, cfg: Config<D>): set<K>
    requires History(h, cfg)
    decreases |h|
  {
    if h == [] then {}
    else NextLost(Lost(h[..|h| - 1], cfg), At(h[..|h| - 1], cfg), h[|h| - 1], cfg)
  }

  /**
   The view has every stored row but the lost ones, and nothing else except rows whose expiry is still to be
   reported.
   */
  ghost predicate Follows<K, D>(v: View<K, D>, s: System<K, D>, lost: set<K>) {
    && (forall g :: g in s.table && s.table[g].key !in lost ==>
          s.table[g].key in v && v[s.table[g].key] == Show(s.table[g]))
    && (forall k :: k in v ==> Holds(s.table, k) || Awaited(s, k))
    && (forall k :: k in lost ==> k !in v && Holds(s.table, k))
  }

  lemma PutFollowed<K, D>(v: View<K, D>, s: System<K, D>, lost: set<K>, s': System<K, D>, row: Row<K, D>)
    requires Valid(s.table) && Follows(v, s, lost)
    requires row.guid in s.table ==> s.table[row.guid].key == row.key
    requires row.guid !in s.table ==> !Holds(s.table, row.key)
    requires s'.table == s.table[row.guid := row] && s'.prunes == s.prunes
    ensures Follows(v[row.key := Show(row)], s', lost - {row.key})
  {
    forall k ensures k == row.key || Holds(s.table, k) ==> Holds(s'.table, k) {
      if k == row.key {
        assert row.guid in s'.table && s'.table[row.guid].key == k;
      } else if Holds(s.table, k) {
        var g :| g in s.table && s.table[g].key == k;
        assert g in s'.table && s'.table[g].key == k;
      }
    }
    forall k | Awaited(s, k) ensures Awaited(s', k) {}
  }

  lemma RemoveFollowed<K, D>(v: View<K, D>, s: System<K, D>, lost: set<K>, s': System<K, D>, g: string)
    requires Valid(s.table) && Follows(v, s, lost)
    requires g in s.table && s'.table == s.table - {g} && s'.prunes == s.prunes
    ensures Follows(v - {s.table[g].key}, s', lost - {s.table[g].key})
  {
    var key := s.table[g].key;
    forall k | k != key && Holds(s.table, k) ensures Holds(s'.table, k) {
      var h :| h in s.table && s.table[h].key == k;
      assert h in s'.table && s'.table[h].key == k;
    }
    forall k | Awaited(s, k) ensures Awaited(s', k) {}
  }

  lemma SaveFollowed<K, D>(v: View<K, D>, s: System<K, D>, lost: set<K>, row: Row<K, D>, env: SaveEnv, cfg: Config<D>)
    requires Inv(s) && Enabled(s, Request(SaveStep(row, env)), cfg) && Follows(v, s, lost)
    requires Save(s.table, row, env, cfg).error.None?
    ensures Follows(Receive(v, Save(s.table, row, env, cfg).events[0]), Act(s, Request(SaveStep(row, env)), cfg),
                    lost - {row.key})
  {
    SavePuts(s.table, row, env, cfg);
    RequestEffect(s, SaveStep(row, env), cfg);
    var row' := Save(s.table, row, env, cfg).table[SavedUnder(s.table, row, env)];
    PutFollowed(v, s, lost, Act(s, Request(SaveStep(row, env)), cfg), row');
  }

  lemma FailedFollowed<K, D>(v: View<K, D>, s: System<K, D>, lost: set<K>, s': System<K, D>)
    requires Follows(v, s, lost) && s'.table == s.table && s'.prunes == s.prunes
    ensures Follows(v, s', lost)
  {
    forall k | Awaited(s, k) ensures Awaited(s', k) {}
  }

  lemma ReplayOne<K, D>(v: View<K, D>, events: seq<Event<K, D>>)
    requires |events| == 1
    ensures Replay(v, events) == Receive(v, events[0])
  {
    assert events[1..] == [];
  }

  lemma RequestFollowed<K, D>(v: View<K, D>, s: System<K, D>, lost: set<K>, step: Step<K, D>, cfg: Config<D>)
    requires Inv(s) && Enabled(s, Request(step), cfg) && Follows(v, s, lost)
    ensures Follows(Replay(v, Apply(s.table, step, cfg).events), Act(s, Request(step), cfg),
                    NextLost(lost, s, Request(step), cfg))
  {
    var e := Apply(s.table, step, cfg);
    RequestEffect(s, step, cfg);
    if e.error.Some? {
      FailedFollowed(v, s, lost, Act(s, Request(step), cfg));
    } else {
      ReplayOne(v, e.events);
      if step.SaveStep? {
        SaveFollowed(v, s, lost, step.row, step.env, cfg);
      } else {
        RemoveFollowed(v, s, lost, Act(s, Request(step), cfg), Holder(s.table, step.key).value);
      }
    }
  }

  lemma DeleteFollowed<K, D>(v: View<K, D>, s: System<K, D>, lost: set<K>, id: nat, cfg: Config<D>)
    requires Inv(s) && Enabled(s, DeleteRows(id, false), cfg) && Follows(v, s, lost)
    ensures Follows(v, Act(s, DeleteRows(id, false), cfg), NextLost(lost, s, DeleteRows(id, false), cfg))
  {
    var found := s.prunes[id].found;
    var s' := Act(s, DeleteRows(id, false), cfg);
    PaddingIsHarmless(s.table, found);
    assert PhaseOk(s.prunes[id], s.issued, s.table);
    forall k | k in v ensures Holds(s'.table, k) || Awaited(s', k) {
      assert Holds(s.table, k) by { assert !Awaited(s, k); }
      var g :| g in s.table && s.table[g].key == k;
      if g in GuidsOf(found) {
        var i :| 0 <= i < |found| && found[i].guid == g;
        assert s'.prunes[id].found[i].key == k;
      } else {
        assert g in s'.table && s'.table[g].key == k;
      }
    }
  }

  lemma EmitFollowed<K, D>(v: View<K, D>, s: System<K, D>, lost: set<K>, id: nat, cfg: Config<D>)
    requires Inv(s) && Enabled(s, EmitExpiry(id), cfg) && Follows(v, s, lost)
    ensures Follows(v - {s.prunes[id].found[s.prunes[id].next].key}, Act(s, EmitExpiry(id), cfg),
                    NextLost(lost, s, EmitExpiry(id), cfg))
  {
    var s' := Act(s, EmitExpiry(id), cfg);
    var key := s.prunes[id].found[s.prunes[id].next].key;
    forall k | k != key && Awaited(s, k) ensures Awaited(s', k) {
      var id', i :| id' in s.prunes && s.prunes[id'].Emitting? && s.prunes[id'].next <= i < |s.prunes[id'].found|
                 && s.prunes[id'].found[i].key == k;
      assert id' in s'.prunes && s'.prunes[id'].found[i].key == k;
    }
  }

  lemma QuietFollowed<K, D>(v: View<K, D>, s: System<K, D>, lost: set<K>, a: Action<K, D>, cfg: Config<D>)
    requires Inv(s) && Enabled(s, a, cfg) && Follows(v, s, lost)
    requires a.Advance? || a.Tick? || a.FindRows? || a.Return? || (a.DeleteRows? && a.fails)
    ensures Follows(v, Act(s, a, cfg), NextLost(lost, s, a, cfg))
  {
    var s' := Act(s, a, cfg);
    forall k | Awaited(s, k) ensures Awaited(s', k) {
      var id, i :| id in s.prunes && s.prunes[id].Emitting? && s.prunes[id].next <= i < |s.prunes[id].found|
                && s.prunes[id].found[i].key == k;
      assert id in s'.prunes && s'.prunes[id].found[i].key == k;
    }
  }

  /**
   In every interleaving the replayed view is the table without the lost keys, up to expiries still to be
   reported.
   */
  lemma {:induction false} ReplayFollows<K, D>(h: seq<Action<K, D>>, cfg: Config<D>)
    requires History(h, cfg)
    ensures Follows(Replay(map[], At(h, cfg).log), At(h, cfg), Lost(h, cfg))
    decreases |h|
  {
    if h != [] {
      var before, a := h[..|h| - 1], h[|h| - 1];
      var s, lost := At(before, cfg), Lost(before, cfg);
      var v := Replay(map[], s.log);
      ReplayFollows(before, cfg);
      if a.Request? {
        ReplayConcat(map[], s.log, Apply(s.table, a.step, cfg).events);
        RequestFollowed(v, s, lost, a.step, cfg);
      } else if a.DeleteRows? && !a.fails {
        DeleteFollowed(v, s, lost, a.id, cfg);
      } else if a.EmitExpiry? {
        var e := Event(ExpireEvent, Show(s.prunes[a.id].found[s.prunes[a.id].next]));
        ReplayConcat(map[], s.log, [e]);
        EmitFollowed(v, s, lost, a.id, cfg);
      } else {
        QuietFollowed(v, s, lost, a, cfg);
      }
    }
  }

  /** Between prunes the log rebuilds the table exactly when no key is lost. */
  lemma ReplayRightIff<K, D>(h: seq<Action<K, D>>, cfg: Config<D>)
    requires History(h, cfg) && At(h, cfg).prunes == map[]
    ensures Mirrors(Replay(map[], At(h, cfg).log), At(h, cfg).table) <==> Lost(h, cfg) == {}
  {
    ReplayFollows(h, cfg);
    if k :| k in Lost(h, cfg) {
      var g :| g in At(h, cfg).table && At(h, cfg).table[g].key == k;
    }
  }
}
