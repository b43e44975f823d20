/** Registering HTTP routes: defaults, validation of the whole batch, then saving it (handlers). */
module HttpUpsert {
  import opened Common
  import opened RouteTable
  import opened Routes
  import opened SqlDatabase
  import opened Batches
  import opened Expiry

  datatype ApiError = InvalidRouteUrl | InvalidRouteServiceUrl | BadPort | MissingRoute | MissingIp | TtlTooLarge
                    | TtlNotPositive | NilTtl

  datatype Response = Created | Rejected(objection: ApiError) | Unavailable(error: DbError)

  /** `parses` is the URL library's verdict that a string parses and prints back unchanged. */
  predicate ValidUrl(url: string, parses: string -> bool) {
    '?' !in url && '#' !in url && parses(url)
  }

  const HTTPS := "https://"

  function RequiredValidation(r: Route, parses: string -> bool): Option<ApiError> {
    if !ValidUrl(r.key.route, parses) then Some(InvalidRouteUrl)
    else if r.key.routeServiceUrl != "" && !(HTTPS <= r.key.routeServiceUrl) then Some(InvalidRouteServiceUrl)
    else if r.key.routeServiceUrl != "" && !ValidUrl(r.key.routeServiceUrl, parses) then Some(InvalidRouteServiceUrl)
    else if r.key.port <= 0 then Some(BadPort)
    else if r.key.route == "" then Some(MissingRoute)
    else if r.key.ip == "" then Some(MissingIp)
    else None
  }

  /** A url is in order: neither a query nor a fragment, and the library reads it and writes it back unchanged. */
  ghost predicate UrlOk(url: string, parses: string -> bool) {
    parses(url) && forall i :: 0 <= i < |url| ==> url[i] != '?' && url[i] != '#'
  }

  /** So is that of a route service, if there is one, which must also use https. */
  ghost predicate ServiceUrlOk(url: string, parses: string -> bool) {
    url == "" || (|url| >= 8 && url[..8] == "https://" && UrlOk(url, parses))
  }

  /** No objection exactly if every column is in order; a bad route-service url is objected to as such. */
  function Verdict(r: Route, maxTtl: int, parses: string -> bool): (e: Option<ApiError>)
    ensures e.None? <==>
            && UrlOk(r.key.route, parses) && ServiceUrlOk(r.key.routeServiceUrl, parses)
            && 0 < r.key.port && r.key.route != "" && r.key.ip != ""
            && r.ttl.Some? && 0 < r.ttl.value <= maxTtl
    ensures e == Some(InvalidRouteServiceUrl) <==>
            UrlOk(r.key.route, parses) && !ServiceUrlOk(r.key.routeServiceUrl, parses)
  {
    var required := RequiredValidation(r, parses);
    if required.Some? then required
    else if r.ttl.None? then Some(NilTtl)
    else if r.ttl.value > maxTtl then Some(TtlTooLarge)
    else if r.ttl.value <= 0 then Some(TtlNotPositive)
    else None
  }

  /** Which objection a route meets: that of the first column, in this order, that is not in order. */
  lemma Objections(r: Route, maxTtl: int, parses: string -> bool)
    ensures var e, k := Verdict(r, maxTtl, parses), r.key;
            var urls := UrlOk(k.route, parses) && ServiceUrlOk(k.routeServiceUrl, parses);
            var placed := urls && 0 < k.port && k.route != "" && k.ip != "";
            && (e == Some(InvalidRouteUrl) <==> !UrlOk(k.route, parses))
            && (e == Some(BadPort) <==> urls && k.port == 0)
            && (e == Some(MissingRoute) <==> urls && 0 < k.port && k.route == "")
            && (e == Some(MissingIp) <==> urls && 0 < k.port && k.route != "" && k.ip == "")
            && (e == Some(NilTtl) <==> placed && r.ttl.None?)
            && (e == Some(TtlTooLarge) <==> placed && r.ttl.Some? && maxTtl < r.ttl.value)
            && (e == Some(TtlNotPositive) <==> placed && r.ttl.Some? && r.ttl.value <= maxTtl && r.ttl.value <= 0)
  {
  }

  /** No objection exactly when there is none to any route; otherwise the objection to the first bad one. */
  method ValidateCreate(routes: seq<Route>, maxTtl: int, parses: string -> bool) returns (r: Option<ApiError>)
    ensures r.None? <==> forall i :: 0 <= i < |routes| ==> Verdict(routes[i], maxTtl, parses).None?
    ensures r.Some? ==> exists i :: 0 <= i < |routes| && r == Verdict(routes[i], maxTtl, parses)
                                    && forall j :: 0 <= j < i ==> Verdict(routes[j], maxTtl, parses).None?
  {
    for i := 0 to |routes|
      invariant forall j :: 0 <= j < i ==> Verdict(routes[j], maxTtl, parses).None?
    {
      var required := RequiredValidation(routes[i], parses);
      if required.Some? {
        r := required;
        assert r == Verdict(routes[i], maxTtl, parses);
        return;
      }
      if routes[i].ttl.None? {
        r := Some(NilTtl);
        assert r == Verdict(routes[i], maxTtl, parses);
        return;
      }
      if routes[i].ttl.value > maxTtl {
        r := Some(TtlTooLarge);
        assert r == Verdict(routes[i], maxTtl, parses);
        return;
      }
      if routes[i].ttl.value <= 0 {
        r := Some(TtlNotPositive);
        assert r == Verdict(routes[i], maxTtl, parses);
        return;
      }
    }
    return None;
  }

  /** A given ttl is kept, a missing one becomes the maximum, and nothing else changes. */
  function AllDefaulted(routes: seq<Route>, maxTtl: int): (r: seq<Route>)
    ensures |r| == |routes|
    ensures forall i :: 0 <= i < |r| ==> r[i].ttl == if routes[i].ttl.Some? then routes[i].ttl else Some(maxTtl)
    ensures forall i :: 0 <= i < |r| ==> r[i].(ttl := routes[i].ttl) == routes[i]
  {
    seq(|routes|, i requires 0 <= i < |routes| =>
                    if routes[i].ttl.None? then routes[i].(ttl := Some(maxTtl)) else routes[i])
  }

  ghost predicate Acceptable(routes: seq<Route>, maxTtl: int, parses: string -> bool) {
    forall i :: 0 <= i < |routes| ==> Verdict(AllDefaulted(routes, maxTtl)[i], maxTtl, parses).None?
  }

  /** A route may be registered: its columns are in order, and so is its ttl, or the maximum where none is given. */
  ghost predicate Registrable(r: Route, maxTtl: int, parses: string -> bool) {
    && UrlOk(r.key.route, parses) && ServiceUrlOk(r.key.routeServiceUrl, parses)
    && 0 < r.key.port && r.key.route != "" && r.key.ip != ""
    && if r.ttl.Some? then 0 < r.ttl.value <= maxTtl else 0 < maxTtl
  }

  lemma AcceptableIff(routes: seq<Route>, maxTtl: int, parses: string -> bool)
    ensures Acceptable(routes, maxTtl, parses) <==>
            forall i :: 0 <= i < |routes| ==> Registrable(routes[i], maxTtl, parses)
  {
    forall i | 0 <= i < |routes|
      ensures Verdict(AllDefaulted(routes, maxTtl)[i], maxTtl, parses).None? <==> Registrable(routes[i], maxTtl, parses)
    {
      assert AllDefaulted(routes, maxTtl)[i].(ttl := routes[i].ttl) == routes[i];
    }
  }

  class RoutesHandler {
    const db: SqlDb
    const maxTtl: int

    constructor (db: SqlDb, maxTtl: int)
      ensures this.db == db && this.maxTtl == maxTtl
    {
      this.db := db;
      this.maxTtl := maxTtl;
    }

    /** Nothing is saved unless every route is acceptable; then everything before the first failing save is. */
    method Upsert(routes: seq<Route>, parses: string -> bool, saves: seq<SaveEnv>) returns (response: Response)
      requires db.Valid() && |saves| == |routes| && RealUuids(saves)
      modifies db`httpRoutes, db`httpEvents
      ensures db.Valid()
      ensures response.Rejected? <==> !Acceptable(routes, maxTtl, parses)
      ensures response.Rejected? <==> exists i :: 0 <= i < |routes| && !Registrable(routes[i], maxTtl, parses)
      ensures response.Rejected? ==> db.httpRoutes == old(db.httpRoutes) && db.httpEvents == old(db.httpEvents)
      ensures !response.Rejected? ==>
                var e := SaveAll(old(db.httpRoutes), AllDefaulted(routes, maxTtl), saves, HttpConfig(db.column));
                && db.httpRoutes == e.table && db.httpEvents == old(db.httpEvents) + e.events
                && response == if e.error.Some? then Unavailable(e.error.value) else Created
    {
      AcceptableIff(routes, maxTtl, parses);
      var rs := SetDefaults(routes);
      var objection := ValidateCreate(rs, maxTtl, parses);
      if objection.Some? { return Rejected(objection.value); }
      response := SaveBatch(rs, saves);
    }

    method SetDefaults(routes: seq<Route>) returns (rs: seq<Route>)
      ensures rs == AllDefaulted(routes, maxTtl)
    {
      rs := routes;
      for i := 0 to |rs|
        invariant |rs| == |routes|
        invariant forall j :: 0 <= j < |rs| ==> rs[j] == if j < i then AllDefaulted(routes, maxTtl)[j] else routes[j]
      {
        if rs[i].ttl.None? { rs := rs[i := rs[i].(ttl := Some(maxTtl))]; }
      }
    }

    method SaveBatch(rs: seq<Route>, saves: seq<SaveEnv>) returns (response: Response)
      requires db.Valid() && |saves| == |rs| && RealUuids(saves)
      modifies db`httpRoutes, db`httpEvents
      ensures db.Valid()
      ensures var e := SaveAll(old(db.httpRoutes), rs, saves, HttpConfig(db.column));
              && db.httpRoutes == e.table && db.httpEvents == old(db.httpEvents) + e.events
              && response == if e.error.Some? then Unavailable(e.error.value) else Created
    {
      ghost var cfg := HttpConfig(db.column);
      ghost var all := SaveAll(db.httpRoutes, rs, saves, cfg);
      assert rs[0..] == rs && saves[0..] == saves;
      for i := 0 to |rs|
        invariant db.Valid()
        invariant Remaining(all, old(db.httpEvents), db.httpRoutes, db.httpEvents, rs, saves, cfg, i)
      {
        ghost var t, log := db.httpRoutes, db.httpEvents;
        var err := db.SaveRoute(rs[i], saves[i]);
        RemainingAfter(all, old(db.httpEvents), t, log, rs, saves, cfg, i, Save(t, rs[i], saves[i], cfg));
        if err.Some? { return Unavailable(err.value); }
      }
      return Created;
    }
  }

  /** What an acceptable batch asks of the table are saves of the kind the expiry theorems speak of. */
  lemma AcceptableIsBounded(routes: seq<Route>, maxTtl: int, parses: string -> bool, saves: seq<SaveEnv>, latest: int)
    requires Acceptable(routes, maxTtl, parses) && |saves| == |routes|
    requires forall i :: 0 <= i < |saves| ==> saves[i].now <= latest
    ensures var steps := SaveSteps(AllDefaulted(routes, maxTtl), saves);
            forall i :: 0 <= i < |routes| ==> HandlerStep(steps[i], maxTtl, latest)
  {
    var steps := SaveSteps(AllDefaulted(routes, maxTtl), saves);
    forall i | 0 <= i < |routes| ensures HandlerStep(steps[i], maxTtl, latest) {
      assert Verdict(AllDefaulted(routes, maxTtl)[i], maxTtl, parses).None?;
    }
  }
}
