/** All backends of one SNI hostname and port either terminate TLS at the front end or do not. */
module FrontendTls {
  import opened Common
  import opened ModificationTags
  import opened RouteTable
  import opened Routes
  import opened Batches
  import opened TcpUpsert

  type Mappings = Table<TcpKey, TcpData>

  /** Two mappings that a client reaches under the same hostname and port. */
  predicate Rivals(a: TcpKey, b: TcpKey) {
    a.sniHostname.Some? && a.sniHostname == b.sniHostname && a.externalPort == b.externalPort
  }

  ghost predicate Agrees(t: Mappings) {
    forall g, h :: g in t && h in t && Rivals(t[g].key, t[h].key) ==>
      t[g].data.terminateFrontendTls == t[h].data.terminateFrontendTls
  }

  /** The mapping would agree with every stored rival, expired or not. */
  ghost predicate Fits(t: Mappings, m: TcpRouteMapping) {
    forall g :: g in t && Rivals(t[g].key, m.key) ==> t[g].data.terminateFrontendTls == m.data.terminateFrontendTls
  }

  /** Saving a new key keeps the agreement exactly when the mapping fits; saving a known key never changes it. */
  lemma SaveAgrees(t: Mappings, m: TcpRouteMapping, env: SaveEnv, column: int -> int)
    requires RouteTable.Valid(t) && Save(t, m, env, TcpConfig(column)).error.None?
    ensures Agrees(Save(t, m, env, TcpConfig(column)).table) <==> Agrees(t) && (Holds(t, m.key) || Fits(t, m))
  {
    var t' := Save(t, m, env, TcpConfig(column)).table;
    assert t'.Keys >= t.Keys;
    forall g | g in t
      ensures t'[g].key == t[g].key && t'[g].data.terminateFrontendTls == t[g].data.terminateFrontendTls {}
    if !Holds(t, m.key) {
      var n := SavedUnder(t, m, env);
      assert t'[n].key == m.key && t'[n].data == m.data;
      if Agrees(t') {
        forall g | g in t && Rivals(t[g].key, m.key)
          ensures t[g].data.terminateFrontendTls == m.data.terminateFrontendTls
        {
          assert Rivals(t'[g].key, t'[n].key);
        }
      }
    }
  }

  // ---------------------------------------------------------------- one batch

  /** The first mapping of the batch with its key, for a key not stored yet: the one that will be created. */
  ghost predicate WillCreate(t: Mappings, ms: seq<TcpRouteMapping>, i: nat)
    requires i < |ms|
  {
    !Holds(t, ms[i].key) && forall j :: 0 <= j < i ==> ms[j].key != ms[i].key
  }

  /** The mappings a batch will create agree with the stored ones and with each other. */
  ghost predicate Compatible(t: Mappings, ms: seq<TcpRouteMapping>) {
    CreatedFit(t, ms) && CreatedAgree(t, ms)
  }

  ghost predicate CreatedFit(t: Mappings, ms: seq<TcpRouteMapping>) {
    forall i {:trigger WillCreate(t, ms, i)} :: 0 <= i < |ms| && WillCreate(t, ms, i) ==> Fits(t, ms[i])
  }

  ghost predicate CreatedAgree(t: Mappings, ms: seq<TcpRouteMapping>) {
    forall i, j {:trigger WillCreate(t, ms, i), WillCreate(t, ms, j)} ::
      0 <= i < j < |ms| && WillCreate(t, ms, i) && WillCreate(t, ms, j) && Rivals(ms[i].key, ms[j].key) ==>
      ms[i].data.terminateFrontendTls == ms[j].data.terminateFrontendTls
  }

  /**
   The table after one save holds the saved key besides what it held, and every mapping fits it that fits the old
   one and the new row.
   */
  lemma SavedTable(t: Mappings, m: TcpRouteMapping, env: SaveEnv, column: int -> int)
    requires RouteTable.Valid(t) && Save(t, m, env, TcpConfig(column)).error.None?
    ensures var t' := Save(t, m, env, TcpConfig(column)).table;
            && (forall k :: Holds(t', k) <==> Holds(t, k) || k == m.key)
            && (forall x: TcpRouteMapping :: Fits(t', x) <==>
                  Fits(t, x) && (Holds(t, m.key) || !Rivals(m.key, x.key)
                                 || m.data.terminateFrontendTls == x.data.terminateFrontendTls))
  {
    var t' := Save(t, m, env, TcpConfig(column)).table;
    var n := SavedUnder(t, m, env);
    assert t'.Keys == t.Keys + {n} && t'[n].key == m.key;
    forall g | g in t
      ensures t'[g].key == t[g].key && t'[g].data.terminateFrontendTls == t[g].data.terminateFrontendTls {}
    forall k ensures Holds(t', k) <==> Holds(t, k) || k == m.key {
      if Holds(t, k) {
        var g :| g in t && t[g].key == k;
        assert t'[g].key == k;
      }
    }
    forall x: TcpRouteMapping
      ensures Fits(t', x) <==>
              Fits(t, x) && (Holds(t, m.key) || !Rivals(m.key, x.key)
                             || m.data.terminateFrontendTls == x.data.terminateFrontendTls)
    {
      if Fits(t', x) {
        forall g | g in t && Rivals(t[g].key, x.key)
          ensures t[g].data.terminateFrontendTls == x.data.terminateFrontendTls
        {
          assert Rivals(t'[g].key, x.key);
        }
      }
    }
  }

  lemma WillCreateLater(t: Mappings, ms: seq<TcpRouteMapping>, env: SaveEnv, column: int -> int, i: nat)
    requires RouteTable.Valid(t) && ms != [] && Save(t, ms[0], env, TcpConfig(column)).error.None? && i + 1 < |ms|
    ensures WillCreate(Save(t, ms[0], env, TcpConfig(column)).table, ms[1..], i) <==> WillCreate(t, ms, i + 1)
  {
    SavedTable(t, ms[0], env, column);
    var t' := Save(t, ms[0], env, TcpConfig(column)).table;
    if WillCreate(t', ms[1..], i) {
      forall j | 0 <= j < i + 1 ensures ms[j].key != ms[i + 1].key {
        if j > 0 { assert ms[1..][j - 1] == ms[j]; }
      }
    }
  }

  lemma CompatibleStep(t: Mappings, ms: seq<TcpRouteMapping>, env: SaveEnv, column: int -> int)
    requires RouteTable.Valid(t) && ms != [] && Save(t, ms[0], env, TcpConfig(column)).error.None?
    ensures Compatible(t, ms) <==>
            (Holds(t, ms[0].key) || Fits(t, ms[0])) && Compatible(Save(t, ms[0], env, TcpConfig(column)).table, ms[1..])
  {
    var m, rest := ms[0], ms[1..];
    var t' := Save(t, m, env, TcpConfig(column)).table;
    SavedTable(t, m, env, column);
    forall i | 0 <= i < |rest| ensures WillCreate(t', rest, i) <==> WillCreate(t, ms, i + 1) {
      WillCreateLater(t, ms, env, column, i);
    }
    assert WillCreate(t, ms, 0) <==> !Holds(t, m.key);
    if Compatible(t, ms) {
      CompatibleForward(t, t', ms);
    }
    if (Holds(t, m.key) || Fits(t, m)) && Compatible(t', rest) {
      FitBack(t, t', ms);
      AgreeBack(t, t', ms);
    }
  }

  /** What `SavedTable` says of the table after saving `m`. */
  ghost predicate Saved(t: Mappings, t': Mappings, m: TcpRouteMapping) {
    forall x: TcpRouteMapping :: Fits(t', x) <==>
      Fits(t, x) && (Holds(t, m.key) || !Rivals(m.key, x.key)
                     || m.data.terminateFrontendTls == x.data.terminateFrontendTls)
  }

  lemma CompatibleForward(t: Mappings, t': Mappings, ms: seq<TcpRouteMapping>)
    requires ms != [] && Saved(t, t', ms[0]) && Compatible(t, ms)
    requires Shifts(t, t', ms) && (WillCreate(t, ms, 0) <==> !Holds(t, ms[0].key))
    ensures Compatible(t', ms[1..])
  {
    var rest := ms[1..];
    forall i | 0 <= i < |rest| && WillCreate(t', rest, i) ensures Fits(t', rest[i]) {
      assert WillCreate(t, ms, i + 1) && rest[i] == ms[i + 1];
    }
    forall i, j | 0 <= i < j < |rest| && WillCreate(t', rest, i) && WillCreate(t', rest, j)
                  && Rivals(rest[i].key, rest[j].key)
      ensures rest[i].data.terminateFrontendTls == rest[j].data.terminateFrontendTls
    {
      assert WillCreate(t, ms, i + 1) && WillCreate(t, ms, j + 1) && rest[i] == ms[i + 1] && rest[j] == ms[j + 1];
    }
  }

  /** Saving the first mapping takes it off the list of those to create, and changes nothing else about the list. */
  ghost predicate Shifts(t: Mappings, t': Mappings, ms: seq<TcpRouteMapping>)
    requires ms != []
  {
    forall i {:trigger WillCreate(t', ms[1..], i)} ::
      0 <= i < |ms[1..]| ==> (WillCreate(t', ms[1..], i) <==> WillCreate(t, ms, i + 1))
  }

  lemma ShiftedAt(t: Mappings, t': Mappings, ms: seq<TcpRouteMapping>, j: nat)
    requires 0 < j < |ms| && Shifts(t, t', ms)
    ensures WillCreate(t', ms[1..], j - 1) <==> WillCreate(t, ms, j)
  {
  }

  /** A later mapping that the batch will create fits the table before and after the first save. */
  lemma LaterFits(t: Mappings, t': Mappings, ms: seq<TcpRouteMapping>, j: nat)
    requires 0 < j < |ms| && Saved(t, t', ms[0]) && CreatedFit(t', ms[1..])
    requires Shifts(t, t', ms) && WillCreate(t, ms, j)
    ensures Fits(t, ms[j])
    ensures !Holds(t, ms[0].key) && Rivals(ms[0].key, ms[j].key) ==>
              ms[0].data.terminateFrontendTls == ms[j].data.terminateFrontendTls
  {
    ShiftedAt(t, t', ms, j);
    assert ms[1..][j - 1] == ms[j];
    assert Fits(t', ms[j]);
  }

  lemma LaterAgree(t: Mappings, t': Mappings, ms: seq<TcpRouteMapping>, i: nat, j: nat)
    requires 0 < i < j < |ms| && CreatedAgree(t', ms[1..]) && Rivals(ms[i].key, ms[j].key)
    requires Shifts(t, t', ms) && WillCreate(t, ms, i) && WillCreate(t, ms, j)
    ensures ms[i].data.terminateFrontendTls == ms[j].data.terminateFrontendTls
  {
    ShiftedAt(t, t', ms, i);
    ShiftedAt(t, t', ms, j);
    assert ms[1..][i - 1] == ms[i] && ms[1..][j - 1] == ms[j];
  }

  lemma FitAt(t: Mappings, t': Mappings, ms: seq<TcpRouteMapping>, i: nat)
    requires i < |ms| && Saved(t, t', ms[0]) && CreatedFit(t', ms[1..]) && Shifts(t, t', ms)
    requires (Holds(t, ms[0].key) || Fits(t, ms[0])) && WillCreate(t, ms, i)
    ensures Fits(t, ms[i])
  {
    if i > 0 { LaterFits(t, t', ms, i); }
  }

  lemma FitBack(t: Mappings, t': Mappings, ms: seq<TcpRouteMapping>)
    requires ms != [] && Saved(t, t', ms[0]) && CreatedFit(t', ms[1..]) && Shifts(t, t', ms)
    requires Holds(t, ms[0].key) || Fits(t, ms[0])
    ensures CreatedFit(t, ms)
  {
    forall i | 0 <= i < |ms| && WillCreate(t, ms, i) ensures Fits(t, ms[i]) {
      FitAt(t, t', ms, i);
    }
  }

  lemma AgreeBack(t: Mappings, t': Mappings, ms: seq<TcpRouteMapping>)
    requires ms != [] && Saved(t, t', ms[0]) && Compatible(t', ms[1..]) && Shifts(t, t', ms)
    ensures CreatedAgree(t, ms)
  {
    forall i, j | 0 <= i < j < |ms| && WillCreate(t, ms, i) && WillCreate(t, ms, j) && Rivals(ms[i].key, ms[j].key)
      ensures ms[i].data.terminateFrontendTls == ms[j].data.terminateFrontendTls
    {
      if i > 0 { LaterAgree(t, t', ms, i, j); } else { LaterFits(t, t', ms, j); }
    }
  }

  /** Compatibility of a batch is that of each of its beginnings. */
  lemma CompatiblePrefix(t: Mappings, ms: seq<TcpRouteMapping>, n: nat)
    requires n <= |ms| && Compatible(t, ms)
    ensures Compatible(t, ms[..n])
  {
    forall i | 0 <= i < n && WillCreate(t, ms[..n], i) ensures WillCreate(t, ms, i) {
      forall j | 0 <= j < i ensures ms[j].key != ms[i].key { assert ms[..n][j].key != ms[..n][i].key; }
    }
  }

  lemma CompatibleNext(t: Mappings, ms: seq<TcpRouteMapping>, n: nat, env: SaveEnv, column: int -> int)
    requires RouteTable.Valid(t) && 0 < n <= |ms| && Save(t, ms[0], env, TcpConfig(column)).error.None?
    ensures Compatible(t, ms[..n]) <==>
            && (Holds(t, ms[0].key) || Fits(t, ms[0]))
            && Compatible(Save(t, ms[0], env, TcpConfig(column)).table, ms[1..][..n - 1])
  {
    assert ms[..n][1..] == ms[1..][..n - 1];
    CompatibleStep(t, ms[..n], env, column);
  }

  /** A batch whose first save succeeds goes on from the table that leaves. */
  lemma BatchGoesOn(t: Mappings, ms: seq<TcpRouteMapping>, saves: seq<SaveEnv>, column: int -> int)
    requires RouteTable.Valid(t) && |saves| == |ms| && RealUuids(saves) && ms != []
    requires Save(t, ms[0], saves[0], TcpConfig(column)).error.None?
    ensures var cfg := TcpConfig(column);
            var t' := Save(t, ms[0], saves[0], cfg).table;
            && RouteTable.Valid(t')
            && SaveAll(t, ms, saves, cfg).table == SaveAll(t', ms[1..], saves[1..], cfg).table
            && SaveAll(t, ms, saves, cfg).error == SaveAll(t', ms[1..], saves[1..], cfg).error
            && SavedCount(t, ms, saves, cfg) == 1 + SavedCount(t', ms[1..], saves[1..], cfg)
  {
    StepKeepsValid(t, SaveStep(ms[0], saves[0]), TcpConfig(column));
  }

  /** The law of batches, which the lemma below proves of all of them. */
  ghost predicate KeptIffCompatible(t: Mappings, ms: seq<TcpRouteMapping>, saves: seq<SaveEnv>, column: int -> int)
    requires RouteTable.Valid(t) && |saves| == |ms| && RealUuids(saves)
  {
    Agrees(SaveAll(t, ms, saves, TcpConfig(column)).table) <==>
    Agrees(t) && Compatible(t, ms[..SavedCount(t, ms, saves, TcpConfig(column))])
  }

  lemma BatchAgreesNext(t: Mappings, ms: seq<TcpRouteMapping>, saves: seq<SaveEnv>, column: int -> int)
    requires RouteTable.Valid(t) && |saves| == |ms| && RealUuids(saves) && ms != []
    requires var e := Save(t, ms[0], saves[0], TcpConfig(column));
             && e.error.None? && RouteTable.Valid(e.table)
             && KeptIffCompatible(e.table, ms[1..], saves[1..], column)
    ensures KeptIffCompatible(t, ms, saves, column)
  {
    BatchGoesOn(t, ms, saves, column);
    SaveAgrees(t, ms[0], saves[0], column);
    CompatibleNext(t, ms, SavedCount(t, ms, saves, TcpConfig(column)), saves[0], column);
  }

  /**
   A batch keeps the agreement exactly when the part of it that is saved, all of it or what comes before the
   first failure, is compatible with the table it started from.
   */
  lemma {:induction false} BatchAgrees(t: Mappings, ms: seq<TcpRouteMapping>, saves: seq<SaveEnv>, column: int -> int)
    requires RouteTable.Valid(t) && |saves| == |ms| && RealUuids(saves)
    ensures Agrees(SaveAll(t, ms, saves, TcpConfig(column)).table) <==>
            Agrees(t) && Compatible(t, ms[..SavedCount(t, ms, saves, TcpConfig(column))])
    decreases |ms|
  {
    if ms != [] && Save(t, ms[0], saves[0], TcpConfig(column)).error.None? {
      BatchGoesOn(t, ms, saves, column);
      BatchAgrees(Save(t, ms[0], saves[0], TcpConfig(column)).table, ms[1..], saves[1..], column);
      BatchAgreesNext(t, ms, saves, column);
    }
  }

  /** No two rivals of one batch disagree. */
  ghost predicate Consistent(ms: seq<TcpRouteMapping>) {
    forall i, j :: 0 <= i < j < |ms| && Rivals(ms[i].key, ms[j].key) ==>
      ms[i].data.terminateFrontendTls == ms[j].data.terminateFrontendTls
  }

  /** Every stored row is still visible to a look-up at `now`. */
  ghost predicate NoneExpired(t: Mappings, now: int, column: int -> int) {
    forall g :: g in t ==> now < column(t[g].expiresAt)
  }

  /** What validation sees is enough when no stored row has expired. */
  lemma AcceptedIsCompatible(t: Mappings, ms: seq<TcpRouteMapping>, groups: seq<string>, maxTtl: int,
                             checks: seq<CheckEnv>, column: int -> int)
    requires |checks| == |ms| && CheckAll(t, ms, groups, maxTtl, checks, column).None?
    requires Consistent(ms) && forall i :: 0 <= i < |checks| ==> NoneExpired(t, checks[i].now, column)
    ensures Compatible(t, ms)
  {
    forall i | 0 <= i < |ms| ensures Fits(t, ms[i]) {
      assert Verdict(ms[i], SimilarTo(t, ms[i], checks[i].now, column), groups, maxTtl).None?;
      forall g | g in t && Rivals(t[g].key, ms[i].key)
        ensures t[g].data.terminateFrontendTls == ms[i].data.terminateFrontendTls
      {
        assert NoneExpired(t, checks[i].now, column);
        assert t[g] in SimilarTo(t, ms[i], checks[i].now, column);
      }
    }
  }

  // ---------------------------------------------------------------- runs

  datatype TcpStep =
    | UpsertStep(mappings: seq<TcpRouteMapping>, groups: seq<string>, checks: seq<CheckEnv>, saves: seq<SaveEnv>)
    | OtherStep(step: Step<TcpKey, TcpData>)

  ghost predicate PossibleTcp(t: Mappings, step: TcpStep, column: int -> int) {
    match step
    case UpsertStep(ms, _, checks, saves) => |checks| == |ms| && |saves| == |ms| && RealUuids(saves)
    case OtherStep(s) => !s.SaveStep? && Possible(t, s, TcpConfig(column))
  }

  /** The table after one request or one prune. */
  ghost function ApplyTcp(t: Mappings, step: TcpStep, maxTtl: int, column: int -> int): (t': Mappings)
    requires RouteTable.Valid(t) && PossibleTcp(t, step, column)
    ensures RouteTable.Valid(t')
  {
    match step
    case UpsertStep(mappings, groups, checks, saves) =>
      var ms := AllDefaulted(mappings, maxTtl);
      if CheckAll(t, ms, groups, maxTtl, checks, column).Some? then t
      else
        SaveAllValid(t, ms, saves, TcpConfig(column));
        SaveAll(t, ms, saves, TcpConfig(column)).table
    case OtherStep(s) =>
      StepKeepsValid(t, s, TcpConfig(column));
      Apply(t, s, TcpConfig(column)).table
  }

  ghost predicate TcpRun(t: Mappings, steps: seq<TcpStep>, maxTtl: int, column: int -> int)
    requires RouteTable.Valid(t)
    decreases |steps|
  {
    steps == [] ||
    (PossibleTcp(t, steps[0], column) && TcpRun(ApplyTcp(t, steps[0], maxTtl, column), steps[1..], maxTtl, column))
  }

  /** Stored rivals agree at the start and after every request. */
  ghost predicate AgreesThroughout(t: Mappings, steps: seq<TcpStep>, maxTtl: int, column: int -> int)
    requires RouteTable.Valid(t) && TcpRun(t, steps, maxTtl, column)
    decreases |steps|
  {
    Agrees(t) &&
    (steps == [] || AgreesThroughout(ApplyTcp(t, steps[0], maxTtl, column), steps[1..], maxTtl, column))
  }

  /** Of an accepted batch, what is saved is compatible with the table the request found. */
  ghost predicate SavesCompatibly(t: Mappings, step: TcpStep, maxTtl: int, column: int -> int)
    requires RouteTable.Valid(t) && PossibleTcp(t, step, column)
  {
    step.UpsertStep? ==>
      var ms := AllDefaulted(step.mappings, maxTtl);
      CheckAll(t, ms, step.groups, maxTtl, step.checks, column).None? ==>
        Compatible(t, ms[..SavedCount(t, ms, step.saves, TcpConfig(column))])
  }

  ghost predicate AllSaveCompatibly(t: Mappings, steps: seq<TcpStep>, maxTtl: int, column: int -> int)
    requires RouteTable.Valid(t) && TcpRun(t, steps, maxTtl, column)
    decreases |steps|
  {
    steps == [] ||
    (SavesCompatibly(t, steps[0], maxTtl, column)
     && AllSaveCompatibly(ApplyTcp(t, steps[0], maxTtl, column), steps[1..], maxTtl, column))
  }

  lemma OtherAgrees(t: Mappings, step: Step<TcpKey, TcpData>, column: int -> int)
    requires RouteTable.Valid(t) && !step.SaveStep? && Agrees(t)
    ensures Agrees(Apply(t, step, TcpConfig(column)).table)
  {
  }

  lemma StepAgreesIff(t: Mappings, step: TcpStep, maxTtl: int, column: int -> int)
    requires RouteTable.Valid(t) && PossibleTcp(t, step, column) && Agrees(t)
    ensures Agrees(ApplyTcp(t, step, maxTtl, column)) <==> SavesCompatibly(t, step, maxTtl, column)
  {
    match step
    case UpsertStep(mappings, groups, checks, saves) =>
      BatchAgrees(t, AllDefaulted(mappings, maxTtl), saves, column);
    case OtherStep(s) => OtherAgrees(t, s, column);
  }

  /**
   In a run of requests and prunes the stored rivals agree after every one of them if and only if of every accepted
   batch the part that was saved was compatible with the table the request found.
   */
  lemma {:induction false} AgreesIff(t: Mappings, steps: seq<TcpStep>, maxTtl: int, column: int -> int)
    requires RouteTable.Valid(t) && TcpRun(t, steps, maxTtl, column) && Agrees(t)
    ensures AgreesThroughout(t, steps, maxTtl, column) <==> AllSaveCompatibly(t, steps, maxTtl, column)
    decreases |steps|
  {
    if steps != [] {
      StepAgreesIff(t, steps[0], maxTtl, column);
      var t' := ApplyTcp(t, steps[0], maxTtl, column);
      if Agrees(t') { AgreesIff(t', steps[1..], maxTtl, column); }
    }
  }

  /** Upserts come in consistent batches, and find no expired row still stored. */
  ghost predicate WellBehaved(t: Mappings, steps: seq<TcpStep>, maxTtl: int, column: int -> int)
    requires RouteTable.Valid(t) && TcpRun(t, steps, maxTtl, column)
    decreases |steps|
  {
    steps == [] ||
    (BehavesWell(t, steps[0], column)
     && WellBehaved(ApplyTcp(t, steps[0], maxTtl, column), steps[1..], maxTtl, column))
  }

  ghost predicate BehavesWell(t: Mappings, step: TcpStep, column: int -> int) {
    step.UpsertStep? ==>
      Consistent(step.mappings) && forall i :: 0 <= i < |step.checks| ==> NoneExpired(t, step.checks[i].now, column)
  }

  lemma DefaultsConsistent(ms: seq<TcpRouteMapping>, maxTtl: int)
    requires Consistent(ms)
    ensures Consistent(AllDefaulted(ms, maxTtl))
  {
    forall i | 0 <= i < |ms|
      ensures AllDefaulted(ms, maxTtl)[i].key == ms[i].key && AllDefaulted(ms, maxTtl)[i].data == ms[i].data {}
  }

  lemma WellBehavedIsCompatible(t: Mappings, step: TcpStep, maxTtl: int, column: int -> int)
    requires RouteTable.Valid(t) && PossibleTcp(t, step, column) && BehavesWell(t, step, column)
    ensures SavesCompatibly(t, step, maxTtl, column)
  {
    if step.UpsertStep? {
      var ms := AllDefaulted(step.mappings, maxTtl);
      if CheckAll(t, ms, step.groups, maxTtl, step.checks, column).None? {
        DefaultsConsistent(step.mappings, maxTtl);
        AcceptedIsCompatible(t, ms, step.groups, maxTtl, step.checks, column);
        CompatiblePrefix(t, ms, SavedCount(t, ms, step.saves, TcpConfig(column)));
      }
    }
  }

  /** So they agree in every state of such a run, however many batches failed part way. */
  lemma {:induction false} AlwaysAgrees(t: Mappings, steps: seq<TcpStep>, maxTtl: int, column: int -> int)
    requires RouteTable.Valid(t) && TcpRun(t, steps, maxTtl, column) && Agrees(t)
    requires WellBehaved(t, steps, maxTtl, column)
    ensures AgreesThroughout(t, steps, maxTtl, column)
    decreases |steps|
  {
    if steps != [] {
      WellBehavedIsCompatible(t, steps[0], maxTtl, column);
      StepAgreesIff(t, steps[0], maxTtl, column);
      AlwaysAgrees(ApplyTcp(t, steps[0], maxTtl, column), steps[1..], maxTtl, column);
    }
  }

  // ---------------------------------------------------------------- why expired rows matter

  /** A request for one mapping, at one time. */
  function Single(m: TcpRouteMapping, now: int, guid: string): TcpStep {
    UpsertStep([m], ["group"], [CheckEnv(now, false)], [SaveEnv(now, Some(guid), Some(guid), false, false)])
  }

  lemma SingleUpsert(t: Mappings, m: TcpRouteMapping, now: int, guid: string, maxTtl: int, column: int -> int)
    requires RouteTable.Valid(t) && m.ttl.Some? && guid != ""
    requires Verdict(m, SimilarTo(t, m, now, column), ["group"], maxTtl).None?
    ensures PossibleTcp(t, Single(m, now, guid), column)
    ensures ApplyTcp(t, Single(m, now, guid), maxTtl, column)
         == Save(t, m, SaveEnv(now, Some(guid), Some(guid), false, false), TcpConfig(column)).table
  {
    var step := Single(m, now, guid);
    assert AllDefaulted(step.mappings, maxTtl) == [m];
    assert CheckAll(t, [m], ["group"], maxTtl, step.checks, column).None? by {
      assert [m][1..] == [] && step.checks[1..] == [];
    }
    var cfg := TcpConfig(column);
    StepKeepsValid(t, SaveStep(m, step.saves[0]), cfg);
    var e := Save(t, m, step.saves[0], cfg);
    assert [m][1..] == [] && step.saves[1..] == [];
    assert e.error.None? ==> SaveAll(e.table, [m][1..], step.saves[1..], cfg) == Effect(e.table, [], None);
    assert SaveAll(t, [m], step.saves, cfg).table == e.table;
  }

  function Backend(ip: string, tls: bool): TcpRouteMapping {
    Row("", 0, TcpKey("group", ip, 1, 1, 0, Some("host"), false), Some(1), NO_TAG, TcpData(None, "", "", tls, ""))
  }

  function Precise(e: int): int { e }

  function Stored(m: TcpRouteMapping, guid: string, expiresAt: int, index: uint32): TcpRouteMapping {
    m.(guid := guid, expiresAt := expiresAt, tag := ModificationTag(guid, index))
  }

  ghost const FIRST: Mappings := map["a" := Stored(Backend("a", true), "a", SECOND, 0)]
  ghost const WITH_RIVAL: Mappings := FIRST["b" := Stored(Backend("b", false), "b", 3 * SECOND, 0)]
  ghost const RENEWED: Mappings := WITH_RIVAL["a" := Stored(Backend("a", true), "a", 3 * SECOND, 1)]

  lemma FirstBackend()
    ensures PossibleTcp(map[], Single(Backend("a", true), 0, "a"), Precise)
    ensures ApplyTcp(map[], Single(Backend("a", true), 0, "a"), 1, Precise) == FIRST
  {
    SingleUpsert(map[], Backend("a", true), 0, "a", 1, Precise);
  }

  lemma RivalAccepted()
    ensures RouteTable.Valid(FIRST) && PossibleTcp(FIRST, Single(Backend("b", false), 2 * SECOND, "b"), Precise)
    ensures ApplyTcp(FIRST, Single(Backend("b", false), 2 * SECOND, "b"), 1, Precise) == WITH_RIVAL
  {
    assert SimilarTo(FIRST, Backend("b", false), 2 * SECOND, Precise) == {};
    SingleUpsert(FIRST, Backend("b", false), 2 * SECOND, "b", 1, Precise);
  }

  lemma RenewalAccepted()
    ensures RouteTable.Valid(WITH_RIVAL)
    ensures var renewal := Backend("a", false);
            Verdict(renewal, SimilarTo(WITH_RIVAL, renewal, 2 * SECOND, Precise), ["group"], 1).None?
  {
    var t := WITH_RIVAL;
    assert t["a"].key.hostIp == "a" && t["b"].key.hostIp == "b";
    assert SimilarTo(t, Backend("a", false), 2 * SECOND, Precise) == {t["b"]};
  }

  lemma RenewalSaved()
    ensures RouteTable.Valid(WITH_RIVAL)
    ensures Save(WITH_RIVAL, Backend("a", false), SaveEnv(2 * SECOND, Some("c"), Some("c"), false, false),
                 TcpConfig(Precise)).table == RENEWED
  {
    RenewalAccepted();
    SaveUpdates(WITH_RIVAL, Backend("a", false), SaveEnv(2 * SECOND, Some("c"), Some("c"), false, false),
                TcpConfig(Precise), "a", Stored(Backend("a", true), "a", 3 * SECOND, 1));
  }

  lemma FirstRenewed()
    ensures RouteTable.Valid(WITH_RIVAL)
            && PossibleTcp(WITH_RIVAL, Single(Backend("a", false), 2 * SECOND, "c"), Precise)
    ensures ApplyTcp(WITH_RIVAL, Single(Backend("a", false), 2 * SECOND, "c"), 1, Precise) == RENEWED
  {
    RenewalAccepted();
    RenewalSaved();
    SingleUpsert(WITH_RIVAL, Backend("a", false), 2 * SECOND, "c", 1, Precise);
  }

  /**
   Three accepted requests from an empty table: a backend with TLS expires but is not pruned, a rival
   without TLS is accepted, and then the first is renewed. Both are live and they disagree.
   */
  lemma ExpiredRivalComesBack()
    ensures ApplyTcp(map[], Single(Backend("a", true), 0, "a"), 1, Precise) == FIRST
    ensures ApplyTcp(FIRST, Single(Backend("b", false), 2 * SECOND, "b"), 1, Precise) == WITH_RIVAL
    ensures ApplyTcp(WITH_RIVAL, Single(Backend("a", false), 2 * SECOND, "c"), 1, Precise) == RENEWED
    ensures NoneExpired(RENEWED, 2 * SECOND, Precise) && !Agrees(RENEWED)
  {
    FirstBackend();
    RivalAccepted();
    FirstRenewed();
    assert Rivals(RENEWED["a"].key, RENEWED["b"].key);
  }

  /** What a handler does in the end with one accepted mapping. */
  ghost function Committed(t: Mappings, m: TcpRouteMapping, now: int, guid: string, column: int -> int): Mappings
    requires RouteTable.Valid(t) && guid != ""
  {
    SaveAll(t, [m], [SaveEnv(now, Some(guid), Some(guid), false, false)], TcpConfig(column)).table
  }

  lemma OneSave(t: Mappings, m: TcpRouteMapping, now: int, guid: string, column: int -> int)
    requires RouteTable.Valid(t) && guid != "" && guid !in t && !Holds(t, m.key) && m.ttl.Some?
    ensures Committed(t, m, now, guid, column) == t[guid := Stored(m, guid, now + m.ttl.value * SECOND, 0)]
    ensures RouteTable.Valid(Committed(t, m, now, guid, column))
  {
    var env := SaveEnv(now, Some(guid), Some(guid), false, false);
    var cfg := TcpConfig(column);
    SaveCreates(t, m, env, cfg, Stored(m, guid, now + m.ttl.value * SECOND, 0));
    assert [m][1..] == [] && [env][1..] == [];
    var e := Save(t, m, env, cfg);
    assert SaveAll(e.table, [m][1..], [env][1..], cfg) == Effect(e.table, [], None);
  }

  /**
   Validation and saving are not one step: two rivals that are both validated before either is saved
   are both accepted, and saving them leaves a table in which they disagree.
   */
  lemma ConcurrentRivalsDisagree()
    ensures var none: Mappings := map[];
            var a, b := Backend("a", true), Backend("b", false);
            && CheckAll(none, [a], ["group"], 1, [CheckEnv(0, false)], Precise).None?
            && CheckAll(none, [b], ["group"], 1, [CheckEnv(0, false)], Precise).None?
            && RouteTable.Valid(Committed(none, a, 0, "a", Precise))
            && !Agrees(Committed(Committed(none, a, 0, "a", Precise), b, 0, "b", Precise))
  {
    var a, b := Backend("a", true), Backend("b", false);
    assert [a][1..] == [] && [b][1..] == [];
    OneSave(map[], a, 0, "a", Precise);
    OneSave(Committed(map[], a, 0, "a", Precise), b, 0, "b", Precise);
    var t := Committed(Committed(map[], a, 0, "a", Precise), b, 0, "b", Precise);
    assert t["a"].key == a.key && t["b"].key == b.key;
    assert Rivals(t["a"].key, t["b"].key);
  }
}
