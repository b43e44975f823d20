/** The races between a prune and requests, shown by histories for any route. */
module PruneRaces {
  import opened Common
  import opened ModificationTags
  import opened RouteTable
  import opened RouteHistory
  import opened TaggedRouter
  import opened PruneInterleaving
  import opened PruneHistory
  import opened PruneReplay
  import opened PruneTags

  function Requested<K, D>(k: K, d: D): Row<K, D> {
    Row("", 0, k, Some(1), ModificationTag("", 0), d)
  }

  /** A time by which a route saved at time 0 for one second has expired. */
  function ExpiryTime(column: int -> int): int {
    if column(SECOND) + SECOND < 0 then 0 else column(SECOND) + SECOND + 1
  }

  function FirstRow<K, D>(k: K, d: D): Row<K, D> {
    Row("row-1", SECOND, k, Some(1), ModificationTag("tag-1", 0), d)
  }

  lemma SavedOnce<K, D>(k: K, d: D, cfg: Config<D>) returns (h: seq<Action<K, D>>)
    ensures History(h, cfg)
    ensures At(h, cfg) ==
            System(map["row-1" := FirstRow(k, d)], [Event(CreateEvent, Show(FirstRow(k, d)))], {"row-1"}, 0, 0, map[])
  {
    var save := Request(SaveStep(Requested(k, d), SaveEnv(0, Some("row-1"), Some("tag-1"), false, false)));
    Extended([], cfg, save);
    h := [] + [save];
    assert At(h, cfg).table == map["row-1" := FirstRow(k, d)];
  }

  lemma SoleAnswer<K, D>(row: Row<K, D>, now: int, column: int -> int)
    requires Expired(row, now, column)
    ensures Answers([row], map[row.guid := row], now, column)
  {
    assert [row][0].guid in GuidsOf([row]);
  }

  /** A route is saved, expires, and is found by a prune. */
  lemma FoundExpired<K, D>(k: K, d: D, cfg: Config<D>) returns (h: seq<Action<K, D>>)
    ensures History(h, cfg)
    ensures At(h, cfg) ==
            System(map["row-1" := FirstRow(k, d)], [Event(CreateEvent, Show(FirstRow(k, d)))], {"row-1"},
                   ExpiryTime(cfg.column), 1, map[0 := Deleting([FirstRow(k, d)])])
  {
    var now := ExpiryTime(cfg.column);
    h := SavedOnce(k, d, cfg);
    Extended(h, cfg, Advance(now));
    h := h + [Advance(now)];
    Extended(h, cfg, Tick(0));
    h := h + [Tick(0)];
    var found := [FirstRow(k, d)];
    SoleAnswer(FirstRow(k, d), now, cfg.column);
    Extended(h, cfg, FindRows(0, found, false));
    h := h + [FindRows(0, found, false)];
  }

  function RenewedRow<K, D>(k: K, d: D, cfg: Config<D>): Row<K, D> {
    Row("row-1", ExpiryTime(cfg.column) + SECOND, k, Some(1), ModificationTag("tag-1", 1), cfg.merge(d, d))
  }

  /** Between the find and the delete of that prune the route is renewed. */
  lemma FoundThenRenewed<K, D>(k: K, d: D, cfg: Config<D>) returns (h: seq<Action<K, D>>)
    ensures History(h, cfg)
    ensures At(h, cfg) ==
            System(map["row-1" := RenewedRow(k, d, cfg)],
                   [Event(CreateEvent, Show(FirstRow(k, d))), Event(UpdateEvent, Show(RenewedRow(k, d, cfg)))],
                   {"row-1"}, ExpiryTime(cfg.column), 1, map[0 := Deleting([FirstRow(k, d)])])
  {
    h := FoundExpired(k, d, cfg);
    var s := At(h, cfg);
    assert Holder(s.table, k) == Some("row-1") by { assert "row-1" in s.table && s.table["row-1"].key == k; }
    var save := Request(SaveStep(Requested(k, d), SaveEnv(s.clock, None, None, false, false)));
    Extended(h, cfg, save);
    h := h + [save];
    assert At(h, cfg).table == map["row-1" := RenewedRow(k, d, cfg)];
    assert {"row-1"} + map["row-1" := RenewedRow(k, d, cfg)].Keys == {"row-1"};
  }

  /** A route refreshed between a prune's find and its delete is removed although it has just been renewed. */
  lemma RefreshedRouteIsPruned<K, D>(k: K, d: D, cfg: Config<D>)
    ensures exists h: seq<Action<K, D>> ::
              && History(h, cfg) && Enabled(At(h, cfg), DeleteRows(0, false), cfg)
              && "row-1" in At(h, cfg).table
              && At(h, cfg).table["row-1"].expiresAt > At(h, cfg).clock
              && "row-1" !in Act(At(h, cfg), DeleteRows(0, false), cfg).table
  {
    var h := FoundThenRenewed(k, d, cfg);
    var found := [FirstRow(k, d)];
    PaddingIsHarmless(At(h, cfg).table, found);
    assert found[0].guid in GuidsOf(found);
  }

  function SecondRow<K, D>(k: K, d: D, now: int): Row<K, D> {
    Row("row-2", now + SECOND, k, Some(1), ModificationTag("tag-2", 0), d)
  }

  /** Between the find and the delete of that prune the route is deleted and created again. */
  lemma FoundThenRecreated<K, D>(k: K, d: D, cfg: Config<D>) returns (h: seq<Action<K, D>>)
    ensures History(h, cfg)
    ensures var now := ExpiryTime(cfg.column);
            At(h, cfg) ==
            System(map["row-2" := SecondRow(k, d, now)],
                   [Event(CreateEvent, Show(FirstRow(k, d))), Event(DeleteEvent, Show(FirstRow(k, d))),
                    Event(CreateEvent, Show(SecondRow(k, d, now)))],
                   {"row-1", "row-2"}, now, 1, map[0 := Deleting([FirstRow(k, d)])])
  {
    h := FoundExpired(k, d, cfg);
    var s := At(h, cfg);
    assert Holder(s.table, k) == Some("row-1") by { assert "row-1" in s.table && s.table["row-1"].key == k; }
    var remove := Request(RemoveStep(k, false, false));
    Extended(h, cfg, remove);
    h := h + [remove];
    assert At(h, cfg).table == map[];
    var save := Request(SaveStep(Requested(k, d), SaveEnv(s.clock, Some("row-2"), Some("tag-2"), false, false)));
    Extended(h, cfg, save);
    h := h + [save];
    assert At(h, cfg).table == map["row-2" := SecondRow(k, d, s.clock)];
    assert {"row-1"} + map["row-2" := SecondRow(k, d, s.clock)].Keys == {"row-1", "row-2"};
  }

  /** A prune that found one row deletes it, reports it and returns. */
  lemma PruneFinishes<K, D>(h: seq<Action<K, D>>, cfg: Config<D>, f: Row<K, D>) returns (h': seq<Action<K, D>>)
    requires History(h, cfg) && At(h, cfg).prunes == map[0 := Deleting([f])]
    ensures History(h', cfg) && At(h', cfg).prunes == map[]
    ensures At(h', cfg).table == At(h, cfg).table - {f.guid}
    ensures At(h', cfg).log == At(h, cfg).log + [Event(ExpireEvent, Show(f))]
  {
    PaddingIsHarmless(At(h, cfg).table, [f]);
    assert GuidsOf([f]) == {f.guid} by { assert [f][0].guid in GuidsOf([f]); }
    Extended(h, cfg, DeleteRows(0, false));
    h' := h + [DeleteRows(0, false)];
    Extended(h', cfg, EmitExpiry(0));
    h' := h' + [EmitExpiry(0)];
    Extended(h', cfg, Return(0));
    h' := h' + [Return(0)];
  }

  /**
   A route deleted and created again during a prune is lost to every subscriber, tags or no tags, and
   the gauge counts it out.
   */
  lemma RecreatedRouteIsLost<K, D>(k: K, d: D, cfg: Config<D>)
    ensures exists h: seq<Action<K, D>> ::
              && History(h, cfg) && At(h, cfg).prunes == map[]
              && Holds(At(h, cfg).table, k)
              && k !in Replay(map[], At(h, cfg).log)
              && FollowAll(None, At(h, cfg).log, k) == None
              && GaugeSum(At(h, cfg).log) == 0
  {
    var h := FoundThenRecreated(k, d, cfg);
    var t := At(h, cfg).table;
    var row1, row2 := FirstRow(k, d), SecondRow(k, d, ExpiryTime(cfg.column));
    var h' := PruneFinishes(h, cfg, row1);
    assert At(h', cfg).table == t;
    LostLog(row1, row2);
    assert Holds(t, k) by { assert "row-2" in t; }
  }

  lemma LostLog<K, D>(row1: Row<K, D>, row2: Row<K, D>)
    requires row1.key == row2.key && row1.tag.guid != row2.tag.guid
    ensures var log := [Event(CreateEvent, Show(row1)), Event(DeleteEvent, Show(row1)), Event(CreateEvent, Show(row2))]
                       + [Event(ExpireEvent, Show(row1))];
            row1.key !in Replay(map[], log) && FollowAll(None, log, row1.key) == None && GaugeSum(log) == 0
  {
    var a := [Event(CreateEvent, Show(row1)), Event(DeleteEvent, Show(row1)), Event(CreateEvent, Show(row2))];
    var e := Event(ExpireEvent, Show(row1));
    ReplayConcat(map[], a, [e]);
    assert Replay(Replay(map[], a), [e]) == Receive(Replay(map[], a), e);
    GaugeConcat(a, [e]);
    FollowConcat(None, a, [e], row1.key);
    assert a[1..] == [a[1], a[2]] && a[1..][1..] == [a[2]];
    assert GaugeSum([a[2]]) == 1;
    var k := row1.key;
    assert FollowAll(Some(Show(row1)), [a[1], a[2]], k) == FollowAll(None, [a[2]], k);
    assert FollowAll(None, a, k) == FollowAll(Some(Show(row1)), a[1..], k);
    assert FollowAll(None, [a[2]], k) == Some(Show(row2));
  }

  /**
   A route renewed during a prune is deleted and reported under its older tag. A subscriber without tags
   drops it, and nothing is lost; a router with the tag rules refuses the report and keeps it.
   */
  lemma RenewedRouteIsStray<K, D>(k: K, d: D, cfg: Config<D>)
    ensures exists h: seq<Action<K, D>> ::
              && History(h, cfg) && At(h, cfg).prunes == map[] && At(h, cfg).table == map[]
              && Lost(h, cfg) == {} && Replay(map[], At(h, cfg).log) == map[]
              && FollowAll(None, At(h, cfg).log, k).Some?
  {
    var h := FoundThenRenewed(k, d, cfg);
    var row, renewed := FirstRow(k, d), RenewedRow(k, d, cfg);
    var h' := PruneFinishes(h, cfg, row);
    var s := At(h', cfg);
    assert s.table == map[];
    ReplayFollows(h', cfg);
    assert Lost(h', cfg) == {} by { assert forall x :: x in Lost(h', cfg) ==> Holds(s.table, x); }
    ReplayRightIff(h', cfg);
    MirrorIsUnique(Replay(map[], s.log), map[], s.table);
    StrayLog(row, renewed);
  }

  lemma StrayLog<K, D>(row: Row<K, D>, renewed: Row<K, D>)
    requires row.key == renewed.key && row.tag.guid == renewed.tag.guid != "" && row.tag.index < renewed.tag.index
    ensures var log := [Event(CreateEvent, Show(row)), Event(UpdateEvent, Show(renewed))]
                       + [Event(ExpireEvent, Show(row))];
            FollowAll(None, log, row.key) == Some(Show(renewed))
  {
    var a, e := Event(CreateEvent, Show(row)), Event(UpdateEvent, Show(renewed));
    FollowOne([a, e], Event(ExpireEvent, Show(row)), row.key);
    assert [a, e] == [a] + [e] && [] + [a] == [a];
    FollowOne([a], e, row.key);
    FollowOne([], a, row.key);
  }
}
