/** What one save, delete or prune answers, and what it leaves, column by column and error by error. */
module TableLaws {
  import opened Common
  import opened ModificationTags
  import opened RouteTable
  import opened RouteHistory

  /** The JSON form tells two rows apart exactly if they differ in more than guid and expiry. */
  lemma ShownAlikeIff<K, D>(a: Row<K, D>, b: Row<K, D>)
    ensures Show(a) == Show(b) <==> a.(guid := b.guid, expiresAt := b.expiresAt) == b
  {
  }

  // ---------------------------------------------------------------- saves

  /** Whether the columns of a new row can be filled in: two uuids and a ttl. */
  ghost predicate Fillable<K, D>(row: Row<K, D>, env: SaveEnv) {
    env.guid.Some? && row.ttl.Some? && env.tagGuid.Some?
  }

  /** Each answer of a save comes exactly in its case, and only success changes anything. */
  lemma SaveAnswers<K, D>(t: Table<K, D>, row: Row<K, D>, env: SaveEnv, cfg: Config<D>)
    requires Valid(t)
    ensures var e := Save(t, row, env, cfg);
            && (e.error.None? <==>
                  && !env.findFails && !env.writeFails
                  && (Holds(t, row.key) || (Fillable(row, env) && env.guid.value !in t)))
            && (e.error == Some(DatabaseFailure) <==>
                  || env.findFails
                  || (Holds(t, row.key) && env.writeFails)
                  || (!Holds(t, row.key) && Fillable(row, env) && (env.writeFails || env.guid.value in t)))
            && (e.error == Some(NilDereference) <==>
                  !env.findFails && !Holds(t, row.key) && env.guid.Some? && row.ttl.None?)
            && (e.error == Some(GuidFailure) <==>
                  && !env.findFails && !Holds(t, row.key)
                  && (env.guid.None? || (row.ttl.Some? && env.tagGuid.None?)))
            && (e.error.Some? ==> e.table == t && e.events == [])
  {
  }

  /** A successful save of a stored key changes that row alone, and exactly these columns of it. */
  lemma UpdateWrites<K, D>(t: Table<K, D>, row: Row<K, D>, env: SaveEnv, cfg: Config<D>, g: string)
    requires Valid(t) && g in t && t[g].key == row.key && Save(t, row, env, cfg).error.None?
    ensures var e, existing := Save(t, row, env, cfg), t[g];
            && e.table.Keys == t.Keys && (forall h :: h in t && h != g ==> e.table[h] == t[h])
            && e.table[g].guid == g && e.table[g].key == existing.key
            && e.table[g].tag.guid == existing.tag.guid
            && e.table[g].tag.index == (existing.tag.index + 1) % 0x1_0000_0000
            && e.table[g].ttl == (if row.ttl.Some? then row.ttl else existing.ttl)
            && e.table[g].expiresAt == env.now + e.table[g].ttl.value * 1_000_000_000
            && e.table[g].data == cfg.merge(existing.data, row.data)
            && e.events == [Event(UpdateEvent, Show(e.table[g]))]
  {
    assert Holder(t, row.key) == Some(g);
  }

  /** A successful save of a key that is not stored adds one row, under new uuids and with index 0. */
  lemma CreateWrites<K, D>(t: Table<K, D>, row: Row<K, D>, env: SaveEnv, cfg: Config<D>)
    requires Valid(t) && !Holds(t, row.key) && Save(t, row, env, cfg).error.None?
    ensures env.guid.Some? && env.tagGuid.Some? && row.ttl.Some? && env.guid.value !in t
    ensures var e, g := Save(t, row, env, cfg), env.guid.value;
            && e.table.Keys == t.Keys + {g} && (forall h :: h in t ==> e.table[h] == t[h])
            && e.table[g] == Row(g, env.now + row.ttl.value * 1_000_000_000, row.key, row.ttl,
                                 ModificationTag(env.tagGuid.value, 0), row.data)
            && e.events == [Event(CreateEvent, Show(e.table[g]))]
  {
  }

  // ---------------------------------------------------------------- deletes and prunes

  /** Each answer of a delete comes exactly in its case; a successful one takes the row of the key and no other. */
  lemma RemoveAnswers<K, D>(t: Table<K, D>, k: K, findFails: bool, writeFails: bool)
    requires Valid(t)
    ensures var e := Remove(t, k, findFails, writeFails);
            && (e.error.None? <==> !findFails && !writeFails && Holds(t, k))
            && (e.error == Some(KeyNotFound) <==> !findFails && !Holds(t, k))
            && (e.error == Some(DatabaseFailure) <==> findFails || (Holds(t, k) && writeFails))
            && (e.error.Some? ==> e.table == t && e.events == [])
            && (e.error.None? ==>
                  && (forall g :: g in e.table <==> g in t && t[g].key != k)
                  && (forall g :: g in e.table ==> e.table[g] == t[g])
                  && exists g :: g in t && t[g].key == k && e.events == [Event(DeleteEvent, Show(t[g]))])
  {
    var h := Holder(t, k);
    if h.Some? {
      forall g | g in t && t[g].key == k ensures g == h.value {}
    }
  }

  /**
   A prune fails exactly if a database call does, and then changes nothing; otherwise it keeps exactly the rows
   whose kept expiry is not more than a second past, and announces each of the others once.
   */
  lemma PruneAnswers<K, D>(t: Table<K, D>, found: seq<Row<K, D>>, now: int, cfg: Config<D>, findFails: bool,
                           writeFails: bool)
    requires Valid(t) && (findFails || Answers(found, t, now, cfg.column))
    ensures var e := Prune(t, found, findFails, writeFails);
            && (e.error == if findFails || writeFails then Some(DatabaseFailure) else None)
            && (e.error.Some? ==> e.table == t && e.events == [])
            && (e.error.None? ==>
                  && (forall g :: g in e.table <==> g in t && now - 1_000_000_000 <= cfg.column(t[g].expiresAt))
                  && (forall g :: g in e.table ==> e.table[g] == t[g])
                  && |e.events| == |t| - |e.table|
                  && (forall i :: 0 <= i < |e.events| ==>
                        && e.events[i].kind == ExpireEvent && found[i].guid in t && found[i].guid !in e.table
                        && e.events[i].value == Show(t[found[i].guid])))
  {
    if !findFails && !writeFails {
      PaddingIsHarmless(t, found);
      PrunedRows(t, found, now, cfg.column);
    }
  }

  lemma PrunedRows<K, D>(t: Table<K, D>, found: seq<Row<K, D>>, now: int, column: int -> int)
    requires Valid(t) && Answers(found, t, now, column)
    ensures var t' := t - GuidsOf(found);
            && (forall g :: g in t' <==> g in t && now - SECOND <= column(t[g].expiresAt))
            && |found| == |t| - |t'|
            && (forall i :: 0 <= i < |found| ==>
               found[i].guid in t && found[i].guid !in t' && t[found[i].guid] == found[i])
  {
    forall g | g in t ensures g in GuidsOf(found) <==> column(t[g].expiresAt) < now - SECOND {
      if g in GuidsOf(found) { var i :| 0 <= i < |found| && found[i].guid == g; }
    }
    forall i | 0 <= i < |found| ensures found[i].guid in GuidsOf(found) {}
    GuidCount(found);
    RemovedCount(t, GuidsOf(found));
    assert t.Keys * GuidsOf(found) == GuidsOf(found);
  }
}
