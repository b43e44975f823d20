/** What the columns of a stored route come from, over whole runs: its creation, or its last upsert. */
module RouteData {
  import opened RouteTable
  import opened Routes

  /** The data of the upserts of `k` that reached the table, since the row was created. */
  ghost function NextUpserts<K, D>(upserts: seq<D>, t: Table<K, D>, step: Step<K, D>, cfg: Config<D>, k: K): seq<D>
    requires Valid(t)
  {
    if !(step.SaveStep? && step.row.key == k && Apply(t, step, cfg).error.None?) then upserts
    else if Holds(t, k) then upserts + [step.row.data] else [step.row.data]
  }

  ghost function Upserts<K, D>(upserts: seq<D>, t: Table<K, D>, steps: seq<Step<K, D>>, cfg: Config<D>, k: K): seq<D>
    requires Valid(t) && PossibleRun(t, steps, cfg)
    decreases |steps|
  {
    if steps == [] then upserts else
    StepKeepsValid(t, steps[0], cfg);
    Upserts(NextUpserts(upserts, t, steps[0], cfg, k), Apply(t, steps[0], cfg).table, steps[1..], cfg, k)
  }

  /** A law that holds of a row as created, and that every update carries on. */
  ghost predicate Carried<D(!new)>(law: (seq<D>, D) -> bool, merge: (D, D) -> D) {
    && (forall d :: law([d], d))
    && (forall upserts, d, d' :: upserts != [] && law(upserts, d) ==> law(upserts + [d'], merge(d, d')))
  }

  ghost predicate Lawful<K, D>(law: (seq<D>, D) -> bool, upserts: seq<D>, t: Table<K, D>, k: K) {
    forall g :: g in t && t[g].key == k ==> upserts != [] && law(upserts, t[g].data)
  }

  lemma SaveLawful<K, D(!new)>(law: (seq<D>, D) -> bool, upserts: seq<D>, t: Table<K, D>, row: Row<K, D>, env: SaveEnv,
                               cfg: Config<D>, k: K)
    requires Valid(t) && Carried(law, cfg.merge) && Lawful(law, upserts, t, k) && Save(t, row, env, cfg).error.None?
    ensures Lawful(law, NextUpserts(upserts, t, SaveStep(row, env), cfg, k), Save(t, row, env, cfg).table, k)
  {
    var e, g := Save(t, row, env, cfg), SavedUnder(t, row, env);
    SavePuts(t, row, env, cfg);
    if row.key == k && g in t { assert Holds(t, k); }
  }

  lemma {:induction false} RunLawful<K, D(!new)>(law: (seq<D>, D) -> bool, upserts: seq<D>, t: Table<K, D>,
                                                 steps: seq<Step<K, D>>, cfg: Config<D>, k: K)
    requires Valid(t) && PossibleRun(t, steps, cfg) && Carried(law, cfg.merge) && Lawful(law, upserts, t, k)
    ensures Lawful(law, Upserts(upserts, t, steps, cfg, k), Run(t, steps, cfg).0, k)
    decreases |steps|
  {
    if steps != [] {
      StepKeepsValid(t, steps[0], cfg);
      var e := Apply(t, steps[0], cfg);
      if steps[0].SaveStep? && e.error.None? { SaveLawful(law, upserts, t, steps[0].row, steps[0].env, cfg, k); }
      RunLawful(law, NextUpserts(upserts, t, steps[0], cfg, k), e.table, steps[1..], cfg, k);
    }
  }

  /** Isolation segment and rewrite hostname are those of the last upsert, all else is as created. */
  ghost predicate TcpLaw(upserts: seq<TcpData>, d: TcpData) {
    upserts != [] &&
    var created, last := upserts[0], upserts[|upserts| - 1];
    && d.isolationSegment == last.isolationSegment && d.sniRewriteHostname == last.sniRewriteHostname
    && d.instanceId == created.instanceId && d.alpns == created.alpns
    && d.terminateFrontendTls == created.terminateFrontendTls
  }

  /** The log guid is that of the last upsert that gave one. */
  ghost predicate HttpLaw(upserts: seq<HttpData>, d: HttpData) {
    if d.logGuid == "" then forall i :: 0 <= i < |upserts| ==> upserts[i].logGuid == ""
    else exists i :: LastGiven(upserts, i, d.logGuid)
  }

  ghost predicate LastGiven(upserts: seq<HttpData>, i: nat, logGuid: string) {
    i < |upserts| && upserts[i].logGuid == logGuid && forall j :: i < j < |upserts| ==> upserts[j].logGuid == ""
  }

  lemma TcpCarried()
    ensures Carried(TcpLaw, MergeTcp)
  {
  }

  lemma HttpCarriedOn(upserts: seq<HttpData>, d: HttpData, d': HttpData)
    requires HttpLaw(upserts, d)
    ensures HttpLaw(upserts + [d'], MergeHttp(d, d'))
  {
    var all := upserts + [d'];
    if d'.logGuid != "" {
      assert LastGiven(all, |upserts|, d'.logGuid);
    } else if d.logGuid != "" {
      var i :| LastGiven(upserts, i, d.logGuid);
      assert LastGiven(all, i, d.logGuid);
    }
  }

  lemma HttpCarried()
    ensures Carried(HttpLaw, MergeHttp)
  {
    forall d ensures HttpLaw([d], d) {
      if d.logGuid != "" { assert LastGiven([d], 0, d.logGuid); }
    }
    forall upserts: seq<HttpData>, d, d' | upserts != [] && HttpLaw(upserts, d)
      ensures HttpLaw(upserts + [d'], MergeHttp(d, d'))
    {
      HttpCarriedOn(upserts, d, d');
    }
  }

  /** After any run the columns of a stored TCP mapping come from its creation and from its last upsert, as named. */
  lemma TcpColumns(steps: seq<Step<TcpKey, TcpData>>, column: int -> int, k: TcpKey, g: string)
    requires PossibleRun(map[], steps, TcpConfig(column))
    requires g in Run(map[], steps, TcpConfig(column)).0 && Run(map[], steps, TcpConfig(column)).0[g].key == k
    ensures TcpLaw(Upserts([], map[], steps, TcpConfig(column), k), Run(map[], steps, TcpConfig(column)).0[g].data)
  {
    TcpCarried();
    RunLawful(TcpLaw, [], map[], steps, TcpConfig(column), k);
  }

  /** After any run a stored HTTP route has the log guid of the last upsert since its creation that gave one. */
  lemma HttpColumns(steps: seq<Step<HttpKey, HttpData>>, column: int -> int, k: HttpKey, g: string)
    requires PossibleRun(map[], steps, HttpConfig(column))
    requires g in Run(map[], steps, HttpConfig(column)).0 && Run(map[], steps, HttpConfig(column)).0[g].key == k
    ensures HttpLaw(Upserts([], map[], steps, HttpConfig(column), k), Run(map[], steps, HttpConfig(column)).0[g].data)
  {
    HttpCarried();
    RunLawful(HttpLaw, [], map[], steps, HttpConfig(column), k);
  }
}
