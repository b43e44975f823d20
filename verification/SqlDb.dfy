/** The database layer for routes: two tables and two event hubs behind one object (db/db_sql.go). */
module SqlDatabase {
  import opened Common
  import opened ModificationTags
  import opened RouteTable
  import opened Routes

  /** The parts of the lookup other than the SNI hostname. */
  predicate SameBackend(a: TcpKey, b: TcpKey) {
    a.(sniHostname := None) == b.(sniHostname := None)
  }

  function Similar(t: Table<TcpKey, TcpData>, sniHostname: string, externalPort: uint16, now: int, column: int -> int)
    : set<TcpRouteMapping>
  {
    set g | g in t && t[g].key.sniHostname == Some(sniHostname) && t[g].key.externalPort == externalPort
            && now < column(t[g].expiresAt) :: t[g]
  }

  class SqlDb {
    var httpRoutes: Table<HttpKey, HttpData>
    var tcpRoutes: Table<TcpKey, TcpData>
    /** Everything emitted so far on each hub. */
    var httpEvents: seq<Event<HttpKey, HttpData>>
    var tcpEvents: seq<Event<TcpKey, TcpData>>
    const column: int -> int

    ghost predicate Valid()
      reads this
    {
      RouteTable.Valid(httpRoutes) && RouteTable.Valid(tcpRoutes)
    }

    constructor (column: int -> int)
      ensures Valid() && this.column == column
      ensures httpRoutes == map[] && tcpRoutes == map[] && httpEvents == [] && tcpEvents == []
    {
      this.column := column;
      httpRoutes, tcpRoutes, httpEvents, tcpEvents := map[], map[], [], [];
    }

    // ------------------------------------------------------------ HTTP routes

    /** The stored route with the key of `route`, or the zero route; never the duplicate error. */
    method ReadRoute(route: Route, findFails: bool) returns (r: Result<Route, DbError>)
      requires Valid()
      ensures r == if findFails then Failure(DatabaseFailure)
                   else match Holder(httpRoutes, route.key)
                        case Some(g) => Success(httpRoutes[g])
                        case None => Success(NO_ROUTE)
    {
      if findFails { return Failure(DatabaseFailure); }
      var rows := set g | g in httpRoutes && httpRoutes[g].key == route.key :: httpRoutes[g];
      ghost var h := Holder(httpRoutes, route.key);
      if h.Some? { assert rows == {httpRoutes[h.value]}; } else { assert rows == {}; }
      if |rows| > 1 { return Failure(DuplicateRows); }
      if |rows| == 1 {
        var row :| row in rows;
        return Success(row);
      }
      return Success(NO_ROUTE);
    }

    /** An update works on a copy of the stored route, field by field. */
    method UpdateRoute(existing: Route, current: Route, now: int) returns (r: Route)
      requires existing.ttl.Some?
      ensures r == Refreshed(existing, current, now, HttpConfig(column))
      ensures r.data.logGuid == if current.data.logGuid != "" then current.data.logGuid else existing.data.logGuid
    {
      r := existing.(tag := existing.tag.Increment());
      if current.ttl.Some? { r := r.(ttl := current.ttl); }
      if current.data.logGuid != "" { r := r.(data := r.data.(logGuid := current.data.logGuid)); }
      r := r.(expiresAt := now + r.ttl.value * SECOND);
    }

    /** Upsert: the table, the hub and the answer are those of `Save`. */
    method SaveRoute(route: Route, env: SaveEnv) returns (err: Option<DbError>)
      requires Valid() && Possible(httpRoutes, SaveStep(route, env), HttpConfig(column))
      modifies this`httpRoutes, this`httpEvents
      ensures Valid()
      ensures var e := Save(old(httpRoutes), route, env, HttpConfig(column));
              httpRoutes == e.table && httpEvents == old(httpEvents) + e.events && err == e.error
      ensures err != Some(DuplicateRows)
    {
      var found := ReadRoute(route, env.findFails);
      if found.Failure? { return Some(found.error); }
      var existing := found.value;

      if existing != NO_ROUTE {
        var updated := UpdateRoute(existing, route, env.now);
        if env.writeFails { return Some(DatabaseFailure); }
        SaveUpdates(httpRoutes, route, env, HttpConfig(column), updated.guid, updated);
        httpRoutes := httpRoutes[updated.guid := updated];
        httpEvents := httpEvents + [Event(UpdateEvent, Show(updated))];
        return None;
      }

      if env.guid.None? { return Some(GuidFailure); }
      if route.ttl.None? { return Some(NilDereference); }
      var created := route.(guid := env.guid.value, expiresAt := env.now + route.ttl.value * SECOND);
      if env.tagGuid.None? { return Some(GuidFailure); }
      created := created.(tag := ModificationTag(env.tagGuid.value, 0));
      if env.writeFails || created.guid in httpRoutes { return Some(DatabaseFailure); }
      SaveCreates(httpRoutes, route, env, HttpConfig(column), created);
      httpRoutes := httpRoutes[created.guid := created];
      httpEvents := httpEvents + [Event(CreateEvent, Show(created))];
      return None;
    }

    /** Delete by key: the table, the hub and the answer are those of `Remove`. */
    method DeleteRoute(route: Route, findFails: bool, writeFails: bool) returns (err: Option<DbError>)
      requires Valid()
      modifies this`httpRoutes, this`httpEvents
      ensures Valid()
      ensures var e := Remove(old(httpRoutes), route.key, findFails, writeFails);
              httpRoutes == e.table && httpEvents == old(httpEvents) + e.events && err == e.error
      ensures err != Some(DuplicateRows)
    {
      var found := ReadRoute(route, findFails);
      if found.Failure? { return Some(found.error); }
      var row := found.value;
      if row == NO_ROUTE { return Some(KeyNotFound); }
      if writeFails { return Some(DatabaseFailure); }
      httpRoutes := httpRoutes - {row.guid};
      httpEvents := httpEvents + [Event(DeleteEvent, Show(row))];
      return None;
    }

    /** One undisturbed prune: it finds, deletes by guid and reports each row found. */
    method PruneRoutes(now: int, findFails: bool, writeFails: bool)
      returns (err: Option<DbError>, ghost found: seq<Route>)
      requires Valid()
      modifies this`httpRoutes, this`httpEvents
      ensures Valid()
      ensures findFails || Answers(found, old(httpRoutes), now, column)
      ensures var e := Prune(old(httpRoutes), found, findFails, writeFails);
              httpRoutes == e.table && httpEvents == old(httpEvents) + e.events && err == e.error
    {
      found := [];
      if findFails { return Some(DatabaseFailure), found; }
      var rows := FindExpired(httpRoutes, now, column);
      found := rows;
      var guids := CollectGuids(rows);
      if writeFails { return Some(DatabaseFailure), found; }
      httpRoutes := httpRoutes - Elements(guids);
      ghost var pruned := httpRoutes;
      for i := 0 to |rows|
        invariant httpRoutes == pruned
        invariant httpEvents == old(httpEvents) + ExpireEvents(rows[..i])
      {
        assert ExpireEvents(rows[..i + 1]) == ExpireEvents(rows[..i]) + [Event(ExpireEvent, Show(rows[i]))];
        httpEvents := httpEvents + [Event(ExpireEvent, Show(rows[i]))];
      }
      assert rows[..|rows|] == rows;
      return None, found;
    }

    // ------------------------------------------------------------ TCP mappings

    /** The stored mapping with the key of `mapping`, or the zero mapping; never the duplicate error. */
    method FindExistingTcpRouteMapping(mapping: TcpRouteMapping, findFails: bool)
      returns (r: Result<TcpRouteMapping, DbError>)
      requires Valid()
      ensures r == if findFails then Failure(DatabaseFailure)
                   else match Holder(tcpRoutes, mapping.key)
                        case Some(g) => Success(tcpRoutes[g])
                        case None => Success(NO_MAPPING)
    {
      if findFails { return Failure(DatabaseFailure); }
      var k := mapping.key;
      var rows := set g | g in tcpRoutes && SameBackend(tcpRoutes[g].key, k) :: tcpRoutes[g];
      if k.sniHostname.None? {
        rows := set row | row in rows && row.key.sniHostname.None?;
      } else {
        rows := set row | row in rows && row.key.sniHostname.Some? && row.key.sniHostname.value == k.sniHostname.value;
      }
      ghost var h := Holder(tcpRoutes, mapping.key);
      if h.Some? { assert rows == {tcpRoutes[h.value]}; } else { assert rows == {}; }
      if |rows| > 1 { return Failure(DuplicateRows); }
      if |rows| == 1 {
        var row :| row in rows;
        return Success(row);
      }
      return Success(NO_MAPPING);
    }

    /** An update works on a copy of the stored mapping, field by field. */
    method UpdateTcpRouteMapping(existing: TcpRouteMapping, current: TcpRouteMapping, now: int)
      returns (r: TcpRouteMapping)
      requires existing.ttl.Some?
      ensures r == Refreshed(existing, current, now, TcpConfig(column))
      ensures r.data.isolationSegment == current.data.isolationSegment
      ensures r.data.sniRewriteHostname == current.data.sniRewriteHostname
      ensures r.data.instanceId == existing.data.instanceId && r.data.alpns == existing.data.alpns
      ensures r.data.terminateFrontendTls == existing.data.terminateFrontendTls
    {
      r := existing.(tag := existing.tag.Increment());
      if current.ttl.Some? { r := r.(ttl := current.ttl); }
      r := r.(data := r.data.(isolationSegment := current.data.isolationSegment));
      r := r.(data := r.data.(sniRewriteHostname := current.data.sniRewriteHostname));
      r := r.(expiresAt := now + r.ttl.value * SECOND);
    }

    /** Upsert: the table, the hub and the answer are those of `Save`. */
    method SaveTcpRouteMapping(mapping: TcpRouteMapping, env: SaveEnv) returns (err: Option<DbError>)
      requires Valid() && Possible(tcpRoutes, SaveStep(mapping, env), TcpConfig(column))
      modifies this`tcpRoutes, this`tcpEvents
      ensures Valid()
      ensures var e := Save(old(tcpRoutes), mapping, env, TcpConfig(column));
              tcpRoutes == e.table && tcpEvents == old(tcpEvents) + e.events && err == e.error
      ensures err != Some(DuplicateRows)
    {
      var found := FindExistingTcpRouteMapping(mapping, env.findFails);
      if found.Failure? { return Some(found.error); }
      var existing := found.value;

      if existing != NO_MAPPING {
        var updated := UpdateTcpRouteMapping(existing, mapping, env.now);
        if env.writeFails { return Some(DatabaseFailure); }
        SaveUpdates(tcpRoutes, mapping, env, TcpConfig(column), updated.guid, updated);
        tcpRoutes := tcpRoutes[updated.guid := updated];
        tcpEvents := tcpEvents + [Event(UpdateEvent, Show(updated))];
        return None;
      }

      if env.guid.None? { return Some(GuidFailure); }
      if mapping.ttl.None? { return Some(NilDereference); }
      var created := mapping.(guid := env.guid.value, expiresAt := env.now + mapping.ttl.value * SECOND);
      if env.tagGuid.None? { return Some(GuidFailure); }
      created := created.(tag := ModificationTag(env.tagGuid.value, 0));
      if env.writeFails || created.guid in tcpRoutes { return Some(DatabaseFailure); }
      SaveCreates(tcpRoutes, mapping, env, TcpConfig(column), created);
      tcpRoutes := tcpRoutes[created.guid := created];
      tcpEvents := tcpEvents + [Event(CreateEvent, Show(created))];
      return None;
    }

    /** Delete by key: the table, the hub and the answer are those of `Remove`. */
    method DeleteTcpRouteMapping(mapping: TcpRouteMapping, findFails: bool, writeFails: bool)
      returns (err: Option<DbError>)
      requires Valid()
      modifies this`tcpRoutes, this`tcpEvents
      ensures Valid()
      ensures var e := Remove(old(tcpRoutes), mapping.key, findFails, writeFails);
              tcpRoutes == e.table && tcpEvents == old(tcpEvents) + e.events && err == e.error
      ensures err != Some(DuplicateRows)
    {
      var found := FindExistingTcpRouteMapping(mapping, findFails);
      if found.Failure? { return Some(found.error); }
      var row := found.value;
      if row == NO_MAPPING { return Some(KeyNotFound); }
      if writeFails { return Some(DatabaseFailure); }
      tcpRoutes := tcpRoutes - {row.guid};
      tcpEvents := tcpEvents + [Event(DeleteEvent, Show(row))];
      return None;
    }

    /** One undisturbed prune: it finds, deletes by guid and reports each row found. */
    method PruneTcpRouteMappings(now: int, findFails: bool, writeFails: bool)
      returns (err: Option<DbError>, ghost found: seq<TcpRouteMapping>)
      requires Valid()
      modifies this`tcpRoutes, this`tcpEvents
      ensures Valid()
      ensures findFails || Answers(found, old(tcpRoutes), now, column)
      ensures var e := Prune(old(tcpRoutes), found, findFails, writeFails);
              tcpRoutes == e.table && tcpEvents == old(tcpEvents) + e.events && err == e.error
    {
      found := [];
      if findFails { return Some(DatabaseFailure), found; }
      var rows := FindExpired(tcpRoutes, now, column);
      found := rows;
      var guids := CollectGuids(rows);
      if writeFails { return Some(DatabaseFailure), found; }
      tcpRoutes := tcpRoutes - Elements(guids);
      ghost var pruned := tcpRoutes;
      for i := 0 to |rows|
        invariant tcpRoutes == pruned
        invariant tcpEvents == old(tcpEvents) + ExpireEvents(rows[..i])
      {
        assert ExpireEvents(rows[..i + 1]) == ExpireEvents(rows[..i]) + [Event(ExpireEvent, Show(rows[i]))];
        tcpEvents := tcpEvents + [Event(ExpireEvent, Show(rows[i]))];
      }
      assert rows[..|rows|] == rows;
      return None, found;
    }

    /**
     The unexpired mappings with this SNI hostname and external port, in some order. A NULL hostname equals no
     string.
     */
    method FindSimilarTcpRouteMappings(sniHostname: string, externalPort: uint16, now: int, findFails: bool)
      returns (r: Result<seq<TcpRouteMapping>, DbError>)
      ensures r.Failure? <==> findFails
      ensures r.Success? ==> Lists(r.value, Similar(tcpRoutes, sniHostname, externalPort, now, column))
      ensures r.Success? ==>
                forall row :: row in r.value <==>
                  exists g :: && g in tcpRoutes && tcpRoutes[g] == row && row.key.sniHostname == Some(sniHostname)
                              && row.key.externalPort == externalPort && now < column(row.expiresAt)
    {
      if findFails { return Failure(DatabaseFailure); }
      var rows := InAnyOrder(Similar(tcpRoutes, sniHostname, externalPort, now, column));
      return Success(rows);
    }
  }

  /** A query answers with its rows in an order of its own. */
  method InAnyOrder<T(==)>(s: set<T>) returns (order: seq<T>)
    ensures Lists(order, s)
  {
    order := [];
    var rest := s;
    while rest != {}
      invariant rest <= s
      invariant forall i :: 0 <= i < |order| ==> order[i] in s && order[i] !in rest
      invariant forall x :: x in s ==> x in rest || x in order
      invariant forall i, j :: 0 <= i < j < |order| ==> order[i] != order[j]
      decreases rest
    {
      var x :| x in rest;
      order := order + [x];
      rest := rest - {x};
    }
  }

  /** The rows the pruning query selects, each once, in no particular order. */
  method FindExpired<K, D>(t: Table<K, D>, now: int, column: int -> int) returns (found: seq<Row<K, D>>)
    requires RouteTable.Valid(t)
    ensures Answers(found, t, now, column)
    ensures forall g :: g in GuidsOf(found) <==> g in t && column(t[g].expiresAt) + 1_000_000_000 < now
  {
    found := [];
    var rest := set g | g in t && Expired(t[g], now, column);
    while rest != {}
      invariant forall i :: 0 <= i < |found| ==>
                  found[i].guid in t && t[found[i].guid] == found[i] && Expired(found[i], now, column)
      invariant forall i :: 0 <= i < |found| ==> found[i].guid !in rest
      invariant forall g :: g in rest ==> g in t && Expired(t[g], now, column)
      invariant forall g :: g in t && Expired(t[g], now, column) ==> g in rest || g in GuidsOf(found)
      invariant forall i, j :: 0 <= i < j < |found| ==> found[i].guid != found[j].guid
      decreases rest
    {
      var g :| g in rest;
      ghost var before := found;
      found := found + [t[g]];
      forall x | x in GuidsOf(before) || x == g ensures x in GuidsOf(found) {
        if x == g {
          assert found[|before|].guid == g;
        } else {
          var i :| 0 <= i < |before| && before[i].guid == x;
          assert found[i].guid == x;
        }
      }
      rest := rest - {g};
    }
  }

  /** The guid list as the program builds it: allocated at full length, then appended to. */
  method CollectGuids<K, D>(rows: seq<Row<K, D>>) returns (guids: seq<string>)
    ensures guids == PaddedGuids(rows)
  {
    guids := seq(|rows|, _ => "");
    for i := 0 to |rows|
      invariant guids == seq(|rows|, _ => "") + seq(i, k requires 0 <= k < i => rows[k].guid)
    {
      guids := guids + [rows[i].guid];
    }
  }
}
