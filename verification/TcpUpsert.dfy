/** Registering TCP mappings: defaults, validation of the whole batch, then saving it (handlers). */
module TcpUpsert {
  import opened Common
  import opened RouteTable
  import opened Routes
  import opened SqlDatabase
  import opened Batches
  import opened Expiry

  datatype ApiError =
    | MissingRouterGroupGuid | BadExternalPort | MissingHostIp | BadHostPort | TlsPortTooLarge
    | TtlTooLarge | TtlNotPositive | AlpnsWithoutFrontendTls | RouterGroupNotFound | FrontendTlsNotAllowed
    | NilTtl

  datatype Response = Created | Rejected(objection: ApiError) | Unavailable(error: DbError)

  /** What one look-up of similar mappings finds in its surroundings. */
  datatype CheckEnv = CheckEnv(now: int, findFails: bool)

  // ---------------------------------------------------------------- one mapping

  function ValidateTcpRouteMapping(m: TcpRouteMapping, checkTtl: bool, maxTtl: int): (r: Option<ApiError>)
    ensures r.None? <==>
            && m.key.routerGroupGuid != "" && m.key.hostIp != "" && 0 < m.key.externalPort
            && (0 < m.key.hostPort || 0 < m.key.hostTlsPort) && m.key.hostTlsPort <= 65535
            && (checkTtl ==> m.ttl.Some? && 0 < m.ttl.value <= maxTtl)
            && (m.data.alpns == "" || m.data.terminateFrontendTls)
  {
    if m.key.routerGroupGuid == "" then Some(MissingRouterGroupGuid)
    else if m.key.externalPort <= 0 then Some(BadExternalPort)
    else if m.key.hostIp == "" then Some(MissingHostIp)
    else if m.key.hostPort <= 0 && m.key.hostTlsPort <= 0 then Some(BadHostPort)
    else if m.key.hostTlsPort > 65535 then Some(TlsPortTooLarge)
    else if checkTtl && m.ttl.None? then Some(NilTtl)
    else if checkTtl && m.ttl.value > maxTtl then Some(TtlTooLarge)
    else if checkTtl && m.ttl.value <= 0 then Some(TtlNotPositive)
    else if m.data.alpns != "" && !m.data.terminateFrontendTls then Some(AlpnsWithoutFrontendTls)
    else None
  }

  /** The verdict on one mapping, given the mappings that share its SNI hostname and port. */
  function Verdict(m: TcpRouteMapping, similar: set<TcpRouteMapping>, groups: seq<string>, maxTtl: int)
    : (r: Option<ApiError>)
    ensures r.None? <==>
            && ValidateTcpRouteMapping(m, true, maxTtl).None? && m.key.routerGroupGuid in groups
            && forall s :: s in similar ==> s.data.terminateFrontendTls == m.data.terminateFrontendTls
  {
    var basic := ValidateTcpRouteMapping(m, true, maxTtl);
    if basic.Some? then basic
    else if m.key.routerGroupGuid !in groups then Some(RouterGroupNotFound)
    else if exists s :: s in similar && s.data.terminateFrontendTls != m.data.terminateFrontendTls then
      Some(FrontendTlsNotAllowed)
    else None
  }

  /** Which objection a mapping meets: that of the first column, in this order, that is not in order. */
  lemma Objections(m: TcpRouteMapping, similar: set<TcpRouteMapping>, groups: seq<string>, maxTtl: int)
    ensures var r, k := Verdict(m, similar, groups, maxTtl), m.key;
            var placed := k.routerGroupGuid != "" && 0 < k.externalPort && k.hostIp != "";
            var backed := placed && (0 < k.hostPort || 0 < k.hostTlsPort) && k.hostTlsPort <= 65535;
            var timed := backed && m.ttl.Some? && 0 < m.ttl.value <= maxTtl;
            var encrypted := timed && (m.data.alpns == "" || m.data.terminateFrontendTls);
            && (r == Some(MissingRouterGroupGuid) <==> k.routerGroupGuid == "")
            && (r == Some(BadExternalPort) <==> k.routerGroupGuid != "" && k.externalPort == 0)
            && (r == Some(MissingHostIp) <==> k.routerGroupGuid != "" && 0 < k.externalPort && k.hostIp == "")
            && (r == Some(BadHostPort) <==> placed && k.hostPort == 0 && k.hostTlsPort <= 0)
            && (r == Some(TlsPortTooLarge) <==> placed && 65535 < k.hostTlsPort)
            && (r == Some(NilTtl) <==> backed && m.ttl.None?)
            && (r == Some(TtlTooLarge) <==> backed && m.ttl.Some? && maxTtl < m.ttl.value)
            && (r == Some(TtlNotPositive) <==> backed && m.ttl.Some? && m.ttl.value <= maxTtl && m.ttl.value <= 0)
            && (r == Some(AlpnsWithoutFrontendTls) <==> timed && !encrypted)
            && (r == Some(RouterGroupNotFound) <==> encrypted && k.routerGroupGuid !in groups)
            && (r == Some(FrontendTlsNotAllowed) <==>
                  && encrypted && k.routerGroupGuid in groups
                  && exists s :: s in similar && s.data.terminateFrontendTls != m.data.terminateFrontendTls)
  {
  }

  method ValidateCreateTcpRouteMapping(m: TcpRouteMapping, similar: seq<TcpRouteMapping>, groups: seq<string>,
                                       maxTtl: int)
    returns (r: Option<ApiError>)
    ensures r == Verdict(m, (set s | s in similar), groups, maxTtl)
  {
    r := ValidateTcpRouteMapping(m, true, maxTtl);
    if r.Some? { return; }

    var validGuid := false;
    for i := 0 to |groups|
      invariant !validGuid && m.key.routerGroupGuid !in groups[..i]
    {
      if m.key.routerGroupGuid == groups[i] {
        validGuid := true;
        break;
      }
    }
    if !validGuid { return Some(RouterGroupNotFound); }

    for i := 0 to |similar|
      invariant forall j :: 0 <= j < i ==> similar[j].data.terminateFrontendTls == m.data.terminateFrontendTls
    {
      if m.data.terminateFrontendTls != similar[i].data.terminateFrontendTls {
        return Some(FrontendTlsNotAllowed);
      }
    }
    return None;
  }

  // ---------------------------------------------------------------- the batch

  function Defaulted(m: TcpRouteMapping, maxTtl: int): TcpRouteMapping {
    if m.ttl.None? then m.(ttl := Some(maxTtl)) else m
  }

  /** A given ttl is kept, a missing one becomes the maximum, and nothing else changes. */
  function AllDefaulted(ms: seq<TcpRouteMapping>, maxTtl: int): (r: seq<TcpRouteMapping>)
    ensures |r| == |ms|
    ensures forall i :: 0 <= i < |ms| ==> r[i].ttl == if ms[i].ttl.Some? then ms[i].ttl else Some(maxTtl)
    ensures forall i :: 0 <= i < |ms| ==> r[i].(ttl := ms[i].ttl) == ms[i]
  {
    seq(|ms|, i requires 0 <= i < |ms| => Defaulted(ms[i], maxTtl))
  }

  /** The SNI hostname a mapping is compared under: a nil one is looked up as the empty string. */
  function SniOf(m: TcpRouteMapping): string {
    if m.key.sniHostname.Some? then m.key.sniHostname.value else ""
  }

  function SimilarTo(t: Table<TcpKey, TcpData>, m: TcpRouteMapping, now: int, column: int -> int)
    : set<TcpRouteMapping> {
    Similar(t, SniOf(m), m.key.externalPort, now, column)
  }

  /** The first objection to the batch, looked up against the table as it is before anything is saved. */
  ghost function CheckAll(t: Table<TcpKey, TcpData>, ms: seq<TcpRouteMapping>, groups: seq<string>, maxTtl: int,
                          checks: seq<CheckEnv>, column: int -> int): (r: Option<Response>)
    requires |checks| == |ms|
    ensures r.None? ==> forall i :: 0 <= i < |ms| ==>
              Verdict(ms[i], SimilarTo(t, ms[i], checks[i].now, column), groups, maxTtl).None?
    decreases |ms|
  {
    if ms == [] then None
    else if checks[0].findFails then Some(Unavailable(DatabaseFailure))
    else
      var v := Verdict(ms[0], SimilarTo(t, ms[0], checks[0].now, column), groups, maxTtl);
      if v.Some? then Some(Rejected(v.value))
      else CheckAll(t, ms[1..], groups, maxTtl, checks[1..], column)
  }

  /**
   A mapping passes: its look-up works, its columns are in order, its router group is known, and it has the TLS flag of
   every stored and unexpired row of its external port and hostname, a nil hostname being looked up as the empty one.
   */
  ghost predicate Passes(t: Table<TcpKey, TcpData>, m: TcpRouteMapping, groups: seq<string>, maxTtl: int,
                         check: CheckEnv, column: int -> int)
  {
    && !check.findFails
    && m.key.routerGroupGuid != "" && m.key.hostIp != "" && 0 < m.key.externalPort
    && (0 < m.key.hostPort || 0 < m.key.hostTlsPort) && m.key.hostTlsPort <= 65535
    && m.ttl.Some? && 0 < m.ttl.value <= maxTtl
    && (m.data.alpns == "" || m.data.terminateFrontendTls)
    && m.key.routerGroupGuid in groups
    && (forall g :: g in t && SameFrontend(t[g].key, m.key) && check.now < column(t[g].expiresAt) ==>
          t[g].data.terminateFrontendTls == m.data.terminateFrontendTls)
  }

  /** The stored key has the external port of `k` and its hostname, which must not be nil. */
  predicate SameFrontend(stored: TcpKey, k: TcpKey) {
    && stored.externalPort == k.externalPort && stored.sniHostname.Some?
    && stored.sniHostname.value == if k.sniHostname.Some? then k.sniHostname.value else ""
  }

  lemma PassesIff(t: Table<TcpKey, TcpData>, m: TcpRouteMapping, groups: seq<string>, maxTtl: int, check: CheckEnv,
                  column: int -> int)
    ensures Passes(t, m, groups, maxTtl, check, column) <==>
            !check.findFails && Verdict(m, SimilarTo(t, m, check.now, column), groups, maxTtl).None?
  {
    var similar := SimilarTo(t, m, check.now, column);
    forall g | g in t ensures SameFrontend(t[g].key, m.key) && check.now < column(t[g].expiresAt) ==> t[g] in similar {}
    forall row | row in similar
      ensures exists g :: && g in t && t[g] == row && SameFrontend(t[g].key, m.key)
                          && check.now < column(t[g].expiresAt) {}
  }

  /** A batch is accepted exactly if every mapping of it passes. */
  lemma {:induction false} AcceptedIff(t: Table<TcpKey, TcpData>, ms: seq<TcpRouteMapping>, groups: seq<string>,
                                       maxTtl: int, checks: seq<CheckEnv>, column: int -> int)
    requires |checks| == |ms|
    ensures CheckAll(t, ms, groups, maxTtl, checks, column).None? <==>
            forall i :: 0 <= i < |ms| ==> Passes(t, ms[i], groups, maxTtl, checks[i], column)
    decreases |ms|
  {
    if ms != [] {
      PassesIff(t, ms[0], groups, maxTtl, checks[0], column);
      AcceptedIff(t, ms[1..], groups, maxTtl, checks[1..], column);
      assert forall i :: 0 < i < |ms| ==> ms[i] == ms[1..][i - 1] && checks[i] == checks[1..][i - 1];
    }
  }

  /** Otherwise the answer is that of the first mapping that does not: a failed look-up, or the objection to it. */
  lemma {:induction false} FirstToFail(t: Table<TcpKey, TcpData>, ms: seq<TcpRouteMapping>, groups: seq<string>,
                                       maxTtl: int, checks: seq<CheckEnv>, column: int -> int)
    returns (n: nat)
    requires |checks| == |ms| && CheckAll(t, ms, groups, maxTtl, checks, column).Some?
    ensures n < |ms| && !Passes(t, ms[n], groups, maxTtl, checks[n], column)
    ensures forall i :: 0 <= i < n ==> Passes(t, ms[i], groups, maxTtl, checks[i], column)
    ensures var answer := CheckAll(t, ms, groups, maxTtl, checks, column).value;
            if checks[n].findFails then answer == Unavailable(DatabaseFailure)
            else answer.Rejected?
                 && Verdict(ms[n], SimilarTo(t, ms[n], checks[n].now, column), groups, maxTtl) == Some(answer.objection)
    decreases |ms|
  {
    PassesIff(t, ms[0], groups, maxTtl, checks[0], column);
    if !Passes(t, ms[0], groups, maxTtl, checks[0], column) {
      n := 0;
    } else {
      var m := FirstToFail(t, ms[1..], groups, maxTtl, checks[1..], column);
      n := m + 1;
      assert ms[n] == ms[1..][m] && checks[n] == checks[1..][m];
      assert forall i :: 0 < i < n ==> ms[i] == ms[1..][i - 1] && checks[i] == checks[1..][i - 1];
    }
  }

  class TcpRouteMappingsHandler {
    const db: SqlDb
    const maxTtl: int

    constructor (db: SqlDb, maxTtl: int)
      ensures this.db == db && this.maxTtl == maxTtl
    {
      this.db := db;
      this.maxTtl := maxTtl;
    }

    /** Nothing is saved unless the whole batch is accepted; then everything before the first failing save is. */
    method Upsert(mappings: seq<TcpRouteMapping>, groups: Result<seq<string>, DbError>, checks: seq<CheckEnv>,
                  saves: seq<SaveEnv>) returns (response: Response)
      requires db.Valid() && |checks| == |mappings| && |saves| == |mappings| && RealUuids(saves)
      modifies db`tcpRoutes, db`tcpEvents
      ensures db.Valid()
      ensures groups.Failure? ==>
                && response == Unavailable(groups.error) && db.tcpRoutes == old(db.tcpRoutes)
                && db.tcpEvents == old(db.tcpEvents)
      ensures groups.Success? ==>
                var ms := AllDefaulted(mappings, maxTtl);
                var objection := CheckAll(old(db.tcpRoutes), ms, groups.value, maxTtl, checks, db.column);
                if objection.Some? then
                  response == objection.value && db.tcpRoutes == old(db.tcpRoutes) && db.tcpEvents == old(db.tcpEvents)
                else
                  var e := SaveAll(old(db.tcpRoutes), ms, saves, TcpConfig(db.column));
                  && db.tcpRoutes == e.table && db.tcpEvents == old(db.tcpEvents) + e.events
                  && response == if e.error.Some? then Unavailable(e.error.value) else Created
      ensures groups.Success? && (exists i :: 0 <= i < |mappings| &&
                                    !Passes(old(db.tcpRoutes), AllDefaulted(mappings, maxTtl)[i], groups.value, maxTtl,
                                            checks[i], db.column)) ==>
                response != Created && db.tcpRoutes == old(db.tcpRoutes) && db.tcpEvents == old(db.tcpEvents)
    {
      var ms := SetDefaults(mappings);
      if groups.Failure? { return Unavailable(groups.error); }
      var objection := CheckBatch(ms, groups.value, checks);
      if objection.Some? { return objection.value; }
      response := SaveBatch(ms, saves);
    }

    method SetDefaults(mappings: seq<TcpRouteMapping>) returns (ms: seq<TcpRouteMapping>)
      ensures ms == AllDefaulted(mappings, maxTtl)
    {
      ms := mappings;
      for i := 0 to |ms|
        invariant |ms| == |mappings|
        invariant forall j :: 0 <= j < |ms| ==> ms[j] == if j < i then Defaulted(mappings[j], maxTtl) else mappings[j]
      {
        if ms[i].ttl.None? { ms := ms[i := ms[i].(ttl := Some(maxTtl))]; }
      }
    }

    /** Every mapping is looked up and judged before any is saved. */
    method CheckBatch(ms: seq<TcpRouteMapping>, groups: seq<string>, checks: seq<CheckEnv>)
      returns (r: Option<Response>)
      requires db.Valid() && |checks| == |ms|
      ensures r == CheckAll(db.tcpRoutes, ms, groups, maxTtl, checks, db.column) && r != Some(Created)
      ensures r.None? <==>
              forall i :: 0 <= i < |ms| ==> Passes(db.tcpRoutes, ms[i], groups, maxTtl, checks[i], db.column)
    {
      AcceptedIff(db.tcpRoutes, ms, groups, maxTtl, checks, db.column);
      for i := 0 to |ms|
        invariant CheckAll(db.tcpRoutes, ms, groups, maxTtl, checks, db.column)
               == CheckAll(db.tcpRoutes, ms[i..], groups, maxTtl, checks[i..], db.column)
      {
        var m := ms[i];
        var sniHostname := "";
        if m.key.sniHostname.Some? { sniHostname := m.key.sniHostname.value; }
        var similar := db.FindSimilarTcpRouteMappings(sniHostname, m.key.externalPort, checks[i].now,
                                                      checks[i].findFails);
        assert ms[i..][0] == m && checks[i..][0] == checks[i];
        if similar.Failure? { return Some(Unavailable(DatabaseFailure)); }
        var objection := ValidateCreateTcpRouteMapping(m, similar.value, groups, maxTtl);
        assert (set s | s in similar.value) == SimilarTo(db.tcpRoutes, m, checks[i].now, db.column);
        if objection.Some? { return Some(Rejected(objection.value)); }
        assert ms[i..][1..] == ms[i + 1..] && checks[i..][1..] == checks[i + 1..];
      }
      return None;
    }

    method SaveBatch(ms: seq<TcpRouteMapping>, saves: seq<SaveEnv>) returns (response: Response)
      requires db.Valid() && |saves| == |ms| && RealUuids(saves)
      modifies db`tcpRoutes, db`tcpEvents
      ensures db.Valid()
      ensures var e := SaveAll(old(db.tcpRoutes), ms, saves, TcpConfig(db.column));
              && db.tcpRoutes == e.table && db.tcpEvents == old(db.tcpEvents) + e.events
              && response == if e.error.Some? then Unavailable(e.error.value) else Created
    {
      ghost var cfg := TcpConfig(db.column);
      ghost var all := SaveAll(db.tcpRoutes, ms, saves, cfg);
      assert ms[0..] == ms && saves[0..] == saves;
      for i := 0 to |ms|
        invariant db.Valid()
        invariant Remaining(all, old(db.tcpEvents), db.tcpRoutes, db.tcpEvents, ms, saves, cfg, i)
      {
        ghost var t, log := db.tcpRoutes, db.tcpEvents;
        var err := db.SaveTcpRouteMapping(ms[i], saves[i]);
        RemainingAfter(all, old(db.tcpEvents), t, log, ms, saves, cfg, i, Save(t, ms[i], saves[i], cfg));
        if err.Some? { return Unavailable(err.value); }
      }
      return Created;
    }
  }

  /** What an accepted batch asks of the table are saves of the kind the expiry theorems speak of. */
  lemma AcceptedIsBounded(t: Table<TcpKey, TcpData>, ms: seq<TcpRouteMapping>, groups: seq<string>, maxTtl: int,
                          checks: seq<CheckEnv>, column: int -> int, saves: seq<SaveEnv>, latest: int)
    requires |checks| == |ms| && |saves| == |ms| && CheckAll(t, ms, groups, maxTtl, checks, column).None?
    requires forall i :: 0 <= i < |saves| ==> saves[i].now <= latest
    ensures forall i :: 0 <= i < |ms| ==> HandlerStep(SaveSteps(ms, saves)[i], maxTtl, latest)
  {
    forall i | 0 <= i < |ms| ensures HandlerStep(SaveSteps(ms, saves)[i], maxTtl, latest) {
      assert Verdict(ms[i], SimilarTo(t, ms[i], checks[i].now, column), groups, maxTtl).None?;
    }
  }
}
