/** What reservations of ports do to any valid store of router groups, whatever fails on their way (client.go). */
module Reservations {
  import opened Common
  import opened PortRanges
  import opened PortSearch
  import opened PortReservation
  import opened RangeRequests
  import opened RouterGroupRuns

  // ---------------------------------------------------------------- which ports the groups hold

  predicate Readable(g: RouterGroup) {
    Parsed(g.ports).Success?
  }

  ghost predicate HoldsPort(g: RouterGroup, p: int) {
    Readable(g) && Taken(Parsed(g.ports).value, p)
  }

  ghost predicate HeldBySome(groups: seq<RouterGroup>, p: int) {
    exists i :: 0 <= i < |groups| && HoldsPort(groups[i], p)
  }

  ghost predicate ReachesTop(g: RouterGroup) {
    Readable(g) && !EndsBelowTop(Parsed(g.ports).value)
  }

  /** No port is held by two groups. */
  ghost predicate Exclusive(groups: seq<RouterGroup>) {
    forall i, j, p :: 0 <= i < j < |groups| && HoldsPort(groups[i], p) ==> !HoldsPort(groups[j], p)
  }

  /** The search sees exactly the ports of the groups, if it can read them all. */
  lemma {:induction false} RangesAre(groups: seq<RouterGroup>, p: int)
    ensures GroupRanges(groups).Success? <==> forall i :: 0 <= i < |groups| ==> Readable(groups[i])
    ensures GroupRanges(groups).Success? ==> (Taken(GroupRanges(groups).value, p) <==> HeldBySome(groups, p))
  {
    if groups != [] {
      var rest := groups[1..];
      RangesAre(rest, p);
      assert forall i :: 0 < i < |groups| ==> groups[i] == rest[i - 1];
      if Readable(groups[0]) && GroupRanges(rest).Success? {
        TakenConcat(Parsed(groups[0].ports).value, GroupRanges(rest).value, p);
        HeldCons(groups, p);
      }
    }
  }

  lemma {:induction false} HeldCons(groups: seq<RouterGroup>, p: int)
    requires groups != []
    ensures HeldBySome(groups, p) <==> HoldsPort(groups[0], p) || HeldBySome(groups[1..], p)
  {
    if i :| 0 <= i < |groups[1..]| && HoldsPort(groups[1..][i], p) { assert HoldsPort(groups[i + 1], p); }
    if i :| 0 < i < |groups| && HoldsPort(groups[i], p) { assert HoldsPort(groups[1..][i - 1], p); }
  }

  /** Where all groups can be read the search ends exactly if none of them reaches the last port. */
  lemma {:induction false} HaltsAre(groups: seq<RouterGroup>)
    requires forall i :: 0 <= i < |groups| ==> Readable(groups[i])
    ensures Halts(groups) <==> forall i :: 0 <= i < |groups| ==> !ReachesTop(groups[i])
  {
    if groups != [] {
      var rest := groups[1..];
      HaltsAre(rest);
      assert forall i :: 0 < i < |groups| ==> groups[i] == rest[i - 1];
    }
  }

  lemma {:induction false} ItoaParsed(p: int)
    requires MIN_PORT <= p <= MAX_PORT
    ensures Parsed(Itoa(p)) == Success([Range(p, p)])
  {
    ItoaParses(p);
    SplitWhole(Itoa(p), ',');
    assert ParseAll([Itoa(p)]).Success? && ParseAll([Itoa(p)]).value == [Range(p, p)];
  }

  /** A group with a single port holds that port and no other. */
  lemma {:induction false} HoldsSingle(g: RouterGroup, p: int)
    requires MIN_PORT <= p <= MAX_PORT && g.ports == Itoa(p)
    ensures forall r: int :: HoldsPort(g, r) <==> r == p
    ensures Readable(g) && (ReachesTop(g) <==> p == MAX_PORT)
  {
    ItoaParsed(p);
    assert Covers(Parsed(g.ports).value[0], p);
  }

  // ---------------------------------------------------------------- what a call needs to succeed

  /** A valid group can be read exactly if it has ports at all. */
  lemma {:induction false} ReadableIff(g: RouterGroup, cfg: PortConfig)
    requires GroupOk(g, cfg)
    ensures Readable(g) <==> g.ports != ""
  {
    if g.ports == "" {
      assert Parsed("") == ParseAll([""]);
      assert !ParseRange([""][0]).Success?;
    }
  }

  /**
   A group without ports, such as any of type http, makes every search fail that reads it: in a valid store
   a port can be looked for exactly if every group has ports.
   */
  lemma {:induction false} SearchableIff(groups: seq<RouterGroup>, range: Range, cfg: PortConfig)
    requires GroupsOk(groups, cfg)
    ensures (NextFree(groups, range).Failure? && NextFree(groups, range).error.BadGroup?) <==>
            exists i :: 0 <= i < |groups| && groups[i].ports == ""
  {
    RangesAre(groups, 0);
    forall i | 0 <= i < |groups| ensures Readable(groups[i]) <==> groups[i].ports != "" {
      ReadableIff(groups[i], cfg);
    }
  }

  /** What a search finds is the least port of its range that no group holds, and every group could be read. */
  lemma {:induction false} FoundPort(groups: seq<RouterGroup>, range: Range, p: int)
    requires NextFree(groups, range) == Success(p)
    ensures forall i :: 0 <= i < |groups| ==> Readable(groups[i])
    ensures Covers(range, p) && !HeldBySome(groups, p) && forall r :: range.start <= r < p ==> HeldBySome(groups, r)
  {
    RangesAre(groups, p);
    forall r | range.start <= r < p ensures HeldBySome(groups, r) {
      RangesAre(groups, r);
    }
  }

  /** A call that returns a port has searched, and its search ended with that port. */
  lemma {:induction false} SearchedFor(groups: seq<RouterGroup>, q: Request, cfg: PortConfig)
    requires Reserve(groups, q, cfg).1.Reserved?
    ensures Requested(q.range).Success? && Halts(groups)
    ensures var p := Reserve(groups, q, cfg).1.port;
            && NextFree(groups, Requested(q.range).value) == Success(p)
            && Reserve(groups, q, cfg) == Place(groups, q, p, cfg)
            && (q.name == "" && !q.nameReadFails ==> groups != [])
  {
  }

  lemma {:induction false} ReservedPort(groups: seq<RouterGroup>, q: Request, cfg: PortConfig)
    requires Reserve(groups, q, cfg).1.Reserved?
    ensures Requested(q.range).Success? && Halts(groups) && forall i :: 0 <= i < |groups| ==> Readable(groups[i])
    ensures var p, range := Reserve(groups, q, cfg).1.port, Requested(q.range).value;
            && MIN_PORT <= p <= MAX_PORT && Covers(range, p)
            && !HeldBySome(groups, p) && (forall r :: range.start <= r < p ==> HeldBySome(groups, r))
            && Reserve(groups, q, cfg) == Place(groups, q, p, cfg)
            && (q.name == "" && !q.nameReadFails ==> groups != [])
  {
    SearchedFor(groups, q, cfg);
    FoundPort(groups, Requested(q.range).value, Reserve(groups, q, cfg).1.port);
    assert WellFormed(Requested(q.range).value);
  }

  /** So one group without ports keeps every reservation from succeeding. */
  lemma {:induction false} PortlessGroupBlocks(groups: seq<RouterGroup>, q: Request, cfg: PortConfig, i: nat)
    requires GroupsOk(groups, cfg) && i < |groups| && groups[i].ports == ""
    ensures !Reserve(groups, q, cfg).1.Reserved?
  {
    ReadableIff(groups[i], cfg);
    if Reserve(groups, q, cfg).1.Reserved? { ReservedPort(groups, q, cfg); }
  }

  // ---------------------------------------------------------------- what it then does to the store

  /** The look-up by name fails although a group of that name and of type tcp is there. */
  ghost predicate Unseen(groups: seq<RouterGroup>, q: Request) {
    q.nameReadFails && exists i :: 0 <= i < |groups| && groups[i].name == q.name && groups[i].kind == TCP
  }

  /** Group `i` is the one asked for and holds the port, and nothing else. */
  ghost predicate Serves(groups: seq<RouterGroup>, q: Request, i: nat, port: int) {
    i < |groups| && groups[i].ports == Itoa(port) && if q.name == "" then i == 0 else groups[i].name == q.name
  }

  ghost predicate StoredFor(groups: seq<RouterGroup>, q: Request, port: int) {
    exists i :: Serves(groups, q, i, port)
  }

  /** A new group comes with a uuid that no group has. */
  ghost predicate FreshCall(groups: seq<RouterGroup>, q: Request) {
    FreshGuid(groups, Create(RouterGroup("", q.name, TCP, ""), q.create))
  }

  /** The group at `i` gets the single port `p`, or a tcp group with it is appended there; all else is as it was. */
  ghost predicate Gets(groups: seq<RouterGroup>, groups': seq<RouterGroup>, q: Request, i: nat, p: int) {
    && Serves(groups', q, i, p) && i <= |groups|
    && |groups'| == (if i < |groups| then |groups| else |groups| + 1)
    && (if i < |groups| then groups'[i] == groups[i].(ports := Itoa(p))
        else groups'[i].kind == TCP && q.create.guid == Some(groups'[i].guid))
    && forall j :: 0 <= j < |groups| && j != i ==> groups'[j] == groups[j]
  }

  lemma {:induction false} PlacedHow(groups: seq<RouterGroup>, q: Request, p: int, cfg: PortConfig)
    requires GroupsOk(groups, cfg)
    requires Place(groups, q, p, cfg).1.Reserved? && (q.name == "" && !q.nameReadFails ==> groups != [])
    ensures match (if q.nameReadFails then None else Target(groups, q.name))
            case Some(i) =>
              UpdateGroup(groups, groups[i].guid, Itoa(p), q.update, cfg) == (Place(groups, q, p, cfg).0, Updated)
            case None =>
              var create := CreateGroup(groups, RouterGroup("", q.name, TCP, Itoa(p)), q.create, cfg);
              create.0 == Place(groups, q, p, cfg).0 && (create.1 == Created || create.1.AlreadyThere?)
  {
    var i := if q.nameReadFails then None else Target(groups, q.name);
    if i.Some? { assert GroupOk(groups[i.value], cfg); }
  }

  /** In a store with distinct guids an update goes to the group it names. */
  lemma {:induction false} UpdateInPlace(groups: seq<RouterGroup>, i: nat, ports: string, env: UpdateEnv,
                                         cfg: PortConfig)
    requires i < |groups| && groups[i].ports != ports && AllApart(groups)
    requires UpdateGroup(groups, groups[i].guid, ports, env, cfg).1 == Updated
    ensures UpdateGroup(groups, groups[i].guid, ports, env, cfg).0 == groups[i := groups[i].(ports := ports)]
  {
    assert ByGuid(groups, groups[i].guid) == Some(i);
  }

  lemma {:induction false} UpdateGets(groups: seq<RouterGroup>, q: Request, p: int, cfg: PortConfig, i: nat)
    requires Sound(groups, cfg) && MIN_PORT <= p <= MAX_PORT && !HeldBySome(groups, p)
             && Target(groups, q.name) == Some(i)
    requires UpdateGroup(groups, groups[i].guid, Itoa(p), q.update, cfg).1 == Updated
    ensures Gets(groups, UpdateGroup(groups, groups[i].guid, Itoa(p), q.update, cfg).0, q, i, p)
  {
    if groups[i].ports == Itoa(p) { HoldsSingle(groups[i], p); }
    UpdateInPlace(groups, i, Itoa(p), q.update, cfg);
  }

  /**
   A creation that is not refused appends the group, unless one of its name and type is there, which is left as
   it is.
   */
  lemma {:induction false} CreateGets(groups: seq<RouterGroup>, q: Request, p: int, cfg: PortConfig)
    requires FreshCall(groups, q)
    requires var r := CreateGroup(groups, RouterGroup("", q.name, TCP, Itoa(p)), q.create, cfg).1;
             r == Created || r.AlreadyThere?
    ensures var g := RouterGroup("", q.name, TCP, Itoa(p));
            var groups' := CreateGroup(groups, g, q.create, cfg).0;
            if Namesake(groups, g).Some? then groups' == groups else Gets(groups, groups', q, |groups|, p)
  {
    var g := RouterGroup("", q.name, TCP, Itoa(p));
    if Namesake(groups, g).None? {
      var created := g.(guid := q.create.guid.value);
      assert (groups + [created])[|groups|] == created;
      assert GroupOk((groups + [created])[|groups|], cfg) ==> q.name != "";
    }
  }

  /** A returned port is written to one group, which gets it and nothing else, unless the group was unseen. */
  lemma {:induction false} ReservedHow(groups: seq<RouterGroup>, q: Request, cfg: PortConfig) returns (i: nat)
    requires Sound(groups, cfg) && FreshCall(groups, q) && Reserve(groups, q, cfg).1.Reserved?
    ensures var (groups', r) := Reserve(groups, q, cfg);
            if Unseen(groups, q) then groups' == groups else Gets(groups, groups', q, i, r.port)
  {
    var p := Reserve(groups, q, cfg).1.port;
    ReservedPort(groups, q, cfg);
    PlacedHow(groups, q, p, cfg);
    var target := if q.nameReadFails then None else Target(groups, q.name);
    if target.Some? {
      i := target.value;
      UpdateGets(groups, q, p, cfg, i);
    } else {
      i := |groups|;
      CreateGets(groups, q, p, cfg);
      assert !q.nameReadFails ==> Namesake(groups, RouterGroup("", q.name, TCP, Itoa(p))).None?;
    }
  }

  /**
   In any valid store a returned port is stored for the group asked for, except exactly when the look-up by
   name failed and a group of that name and of type tcp was there.
   */
  lemma {:induction false} StoredUnlessUnseen(groups: seq<RouterGroup>, q: Request, cfg: PortConfig)
    requires Sound(groups, cfg) && FreshCall(groups, q) && Reserve(groups, q, cfg).1.Reserved?
    ensures var (groups', r) := Reserve(groups, q, cfg);
            StoredFor(groups', q, r.port) <==>
            !(q.nameReadFails && exists i :: 0 <= i < |groups| && groups[i].name == q.name && groups[i].kind == TCP)
  {
    var i := ReservedHow(groups, q, cfg);
    var p := Reserve(groups, q, cfg).1.port;
    ReservedPort(groups, q, cfg);
    if Unseen(groups, q) {
      forall j: nat ensures !Serves(groups, q, j, p) {
        if j < |groups| && groups[j].ports == Itoa(p) { HoldsSingle(groups[j], p); }
      }
    }
  }

  lemma {:induction false} PlaceSound(groups: seq<RouterGroup>, q: Request, p: int, cfg: PortConfig)
    requires Sound(groups, cfg) && FreshCall(groups, q)
    ensures Sound(Place(groups, q, p, cfg).0, cfg)
  {
    if Found(groups, q) != NO_GROUP {
      UpdateSound(groups, Found(groups, q).guid, Itoa(p), q.update, cfg);
    } else {
      CreateSound(groups, RouterGroup("", q.name, TCP, Itoa(p)), q.create, cfg);
    }
  }

  /** A port that nobody held can be given to one group without taking it from another. */
  lemma {:induction false} GetsExclusive(groups: seq<RouterGroup>, groups': seq<RouterGroup>, q: Request, i: nat,
                                         p: int)
    requires Gets(groups, groups', q, i, p) && MIN_PORT <= p <= MAX_PORT
    requires Exclusive(groups) && !HeldBySome(groups, p)
    ensures Exclusive(groups')
  {
    HoldsSingle(groups'[i], p);
    forall a, b, r | 0 <= a < b < |groups'| && HoldsPort(groups'[a], r) ensures !HoldsPort(groups'[b], r) {
      if a != i { assert groups'[a] == groups[a]; }
      if b != i { assert groups'[b] == groups[b]; }
    }
  }

  /** From a store on which the search ends it goes on ending exactly as long as the last port is not given out. */
  lemma {:induction false} GetsHalts(groups: seq<RouterGroup>, groups': seq<RouterGroup>, q: Request, i: nat, p: int)
    requires Gets(groups, groups', q, i, p) && MIN_PORT <= p <= MAX_PORT
    requires Halts(groups) && forall j :: 0 <= j < |groups| ==> Readable(groups[j])
    ensures Halts(groups') <==> p != MAX_PORT
  {
    HaltsAre(groups);
    HoldsSingle(groups'[i], p);
    forall j | 0 <= j < |groups'|
      ensures Readable(groups'[j]) && (ReachesTop(groups'[j]) <==> j == i && p == MAX_PORT)
    {
      if j != i { assert groups'[j] == groups[j]; }
    }
    HaltsAre(groups');
  }

  lemma {:induction false} PlaceUnchanged(groups: seq<RouterGroup>, q: Request, port: int, cfg: PortConfig)
    requires !Place(groups, q, port, cfg).1.Reserved?
    ensures Place(groups, q, port, cfg) == (groups, Refused(NotSaved))
  {
  }

  lemma {:induction false} RefusedUnchanged(groups: seq<RouterGroup>, q: Request, cfg: PortConfig)
    requires !Reserve(groups, q, cfg).1.Reserved?
    ensures Reserve(groups, q, cfg).0 == groups
    ensures Reserve(groups, q, cfg).1.Panics? ==> q.name == "" && groups == []
  {
    var range := Requested(q.range);
    if range.Success? && Halts(groups) && !q.listFails {
      var free := NextFree(groups, range.value);
      if free.Success? && !Reserve(groups, q, cfg).1.Panics? { PlaceUnchanged(groups, q, free.value, cfg); }
    }
  }

  lemma {:induction false} HangsIff(groups: seq<RouterGroup>, q: Request, cfg: PortConfig)
    ensures Reserve(groups, q, cfg).1.Hangs? <==> Asks(q.range) && !q.listFails && !Halts(groups)
  {
    AsksIff(q.range);
  }

  /** `p` is the least port of the range that no group holds. */
  ghost predicate LeastUnheld(groups: seq<RouterGroup>, r: Range, p: int) {
    r.start <= p <= r.end && !HeldBySome(groups, p) && forall q :: r.start <= q < p ==> HeldBySome(groups, q)
  }

  /**
   What a call that returns a port has done: it gave the least port of the range asked for that nobody held to one
   group, which holds that and nothing else from then on, and left every other group as it was; or to none, if the
   group was unseen.
   */
  ghost predicate Granted(groups: seq<RouterGroup>, q: Request, groups': seq<RouterGroup>, p: int) {
    && (exists r :: AsksFor(q.range, r) && LeastUnheld(groups, r, p))
    && (StoredFor(groups', q, p) <==> !Unseen(groups, q))
    && (Unseen(groups, q) ==> groups' == groups)
    && (!Unseen(groups, q) ==>
          (exists i: nat :: Gets(groups, groups', q, i, p)) && (Halts(groups') <==> p != MAX_PORT))
  }

  /**
   What any call does to any valid store. It keeps the groups valid and distinct and no port in two of them; without
   success it changes nothing; it hangs exactly if it gets to search groups that reach the last port.
   */
  ghost predicate Kept(groups: seq<RouterGroup>, q: Request, cfg: PortConfig) {
    var (groups', r) := Reserve(groups, q, cfg);
    && Sound(groups', cfg)
    && (Exclusive(groups) ==> Exclusive(groups'))
    && (r.Hangs? <==> Asks(q.range) && !q.listFails && !Halts(groups))
    && (r.Panics? ==> q.name == "" && groups == [])
    && (!r.Reserved? ==> groups' == groups)
    && (r.Reserved? ==> Granted(groups, q, groups', r.port))
  }

  lemma {:induction false} GrantedKept(groups: seq<RouterGroup>, q: Request, cfg: PortConfig)
    requires Sound(groups, cfg) && FreshCall(groups, q) && Reserve(groups, q, cfg).1.Reserved?
    ensures var (groups', r) := Reserve(groups, q, cfg);
            Sound(groups', cfg) && (Exclusive(groups) ==> Exclusive(groups')) && Granted(groups, q, groups', r.port)
  {
    var (groups', r) := Reserve(groups, q, cfg);
    ReservedPort(groups, q, cfg);
    AsksIff(q.range);
    assert LeastUnheld(groups, Requested(q.range).value, r.port);
    PlaceSound(groups, q, r.port, cfg);
    StoredUnlessUnseen(groups, q, cfg);
    var i := ReservedHow(groups, q, cfg);
    if !Unseen(groups, q) {
      GetsHalts(groups, groups', q, i, r.port);
      if Exclusive(groups) { GetsExclusive(groups, groups', q, i, r.port); }
    }
  }

  lemma {:induction false} ReserveKept(groups: seq<RouterGroup>, q: Request, cfg: PortConfig)
    requires Sound(groups, cfg) && FreshCall(groups, q)
    ensures Kept(groups, q, cfg)
  {
    HangsIff(groups, q, cfg);
    if Reserve(groups, q, cfg).1.Reserved? { GrantedKept(groups, q, cfg); } else { RefusedUnchanged(groups, q, cfg); }
  }

  // ---------------------------------------------------------------- runs

  /** The store after calls one after another. */
  ghost function AfterAll(groups: seq<RouterGroup>, qs: seq<Request>, cfg: PortConfig): seq<RouterGroup>
    decreases |qs|
  {
    if qs == [] then groups else AfterAll(Reserve(groups, qs[0], cfg).0, qs[1..], cfg)
  }

  ghost predicate FreshCalls(groups: seq<RouterGroup>, qs: seq<Request>, cfg: PortConfig)
    decreases |qs|
  {
    qs == [] || (FreshCall(groups, qs[0]) && FreshCalls(Reserve(groups, qs[0], cfg).0, qs[1..], cfg))
  }

  ghost predicate EveryCallKept(groups: seq<RouterGroup>, qs: seq<Request>, cfg: PortConfig)
    decreases |qs|
  {
    qs == [] || (Kept(groups, qs[0], cfg) && EveryCallKept(Reserve(groups, qs[0], cfg).0, qs[1..], cfg))
  }

  /** So does every call of every run, from any valid store. */
  lemma {:induction false} RunKept(groups: seq<RouterGroup>, qs: seq<Request>, cfg: PortConfig)
    requires Sound(groups, cfg) && FreshCalls(groups, qs, cfg)
    ensures EveryCallKept(groups, qs, cfg) && Sound(AfterAll(groups, qs, cfg), cfg)
    ensures Exclusive(groups) ==> Exclusive(AfterAll(groups, qs, cfg))
    decreases |qs|
  {
    if qs != [] {
      ReserveKept(groups, qs[0], cfg);
      RunKept(Reserve(groups, qs[0], cfg).0, qs[1..], cfg);
    }
  }

  /** The group holds exactly the one port `p`. */
  ghost predicate IsSingle(g: RouterGroup, p: int) {
    MIN_PORT <= p <= MAX_PORT && g.ports == Itoa(p)
  }

  ghost predicate Single(g: RouterGroup) {
    exists p :: IsSingle(g, p)
  }

  ghost predicate AllSingle(groups: seq<RouterGroup>) {
    forall i :: 0 <= i < |groups| ==> Single(groups[i])
  }

  lemma {:induction false} GetsSingle(groups: seq<RouterGroup>, groups': seq<RouterGroup>, q: Request, i: nat, p: int)
    requires Gets(groups, groups', q, i, p) && MIN_PORT <= p <= MAX_PORT && AllSingle(groups)
    ensures AllSingle(groups')
  {
    forall j | 0 <= j < |groups'| ensures Single(groups'[j]) {
      if j == i {
        assert IsSingle(groups'[j], p);
      } else {
        assert groups'[j] == groups[j];
      }
    }
  }

  /** Groups that hold single ports go on doing so: from an empty store, so do all that reservations ever make. */
  lemma {:induction false} RunKeepsSingle(groups: seq<RouterGroup>, qs: seq<Request>, cfg: PortConfig)
    requires Sound(groups, cfg) && FreshCalls(groups, qs, cfg) && AllSingle(groups)
    ensures AllSingle(AfterAll(groups, qs, cfg))
    decreases |qs|
  {
    if qs != [] {
      var (groups', r) := Reserve(groups, qs[0], cfg);
      ReserveKept(groups, qs[0], cfg);
      if r.Reserved? && !Unseen(groups, qs[0]) {
        var i: nat :| Gets(groups, groups', qs[0], i, r.port);
        GetsSingle(groups, groups', qs[0], i, r.port);
      }
      RunKeepsSingle(groups', qs[1..], cfg);
    }
  }

  /** The call asks for the group at `j`. */
  predicate Wants(groups: seq<RouterGroup>, q: Request, j: nat)
    requires j < |groups|
  {
    if q.name == "" then j == 0 else groups[j].name == q.name
  }

  lemma {:induction false} OtherKept(groups: seq<RouterGroup>, q: Request, cfg: PortConfig, j: nat)
    requires Sound(groups, cfg) && FreshCall(groups, q) && j < |groups| && !Wants(groups, q, j)
    ensures var groups' := Reserve(groups, q, cfg).0;
            j < |groups'| && groups'[j] == groups[j]
  {
    ReserveKept(groups, q, cfg);
  }

  /** What a group holds it holds until a call asks for it again. */
  lemma {:induction false} RunKeepsOther(groups: seq<RouterGroup>, qs: seq<Request>, cfg: PortConfig, j: nat)
    requires Sound(groups, cfg) && FreshCalls(groups, qs, cfg) && j < |groups|
    requires forall n :: 0 <= n < |qs| ==> !Wants(groups, qs[n], j)
    ensures j < |AfterAll(groups, qs, cfg)| && AfterAll(groups, qs, cfg)[j] == groups[j]
    decreases |qs|
  {
    if qs != [] {
      var groups' := Reserve(groups, qs[0], cfg).0;
      OtherKept(groups, qs[0], cfg, j);
      ReserveKept(groups, qs[0], cfg);
      forall n | 0 <= n < |qs[1..]| ensures !Wants(groups', qs[1..][n], j) {
        assert !Wants(groups, qs[n + 1], j);
      }
      RunKeepsOther(groups', qs[1..], cfg, j);
    }
  }

  ghost predicate BelowTop(q: Request) {
    forall r :: AsksFor(q.range, r) ==> r.end < MAX_PORT
  }

  /** No call of the run hangs. */
  ghost predicate NoneHangs(groups: seq<RouterGroup>, qs: seq<Request>, cfg: PortConfig)
    decreases |qs|
  {
    qs == [] || (!Reserve(groups, qs[0], cfg).1.Hangs? && NoneHangs(Reserve(groups, qs[0], cfg).0, qs[1..], cfg))
  }

  /** If the groups stay below the last port and so do all requests, no call of any run hangs. */
  lemma {:induction false} RunNeverHangs(groups: seq<RouterGroup>, qs: seq<Request>, cfg: PortConfig)
    requires Sound(groups, cfg) && FreshCalls(groups, qs, cfg) && Halts(groups)
    requires forall i :: 0 <= i < |qs| ==> BelowTop(qs[i])
    ensures NoneHangs(groups, qs, cfg) && Halts(AfterAll(groups, qs, cfg))
    decreases |qs|
  {
    if qs != [] {
      assert BelowTop(qs[0]);
      ReserveKept(groups, qs[0], cfg);
      RunNeverHangs(Reserve(groups, qs[0], cfg).0, qs[1..], cfg);
    }
  }

  lemma {:induction false} HangsUnchanged(groups: seq<RouterGroup>, q: Request, cfg: PortConfig)
    requires !Halts(groups)
    ensures Reserve(groups, q, cfg).0 == groups && !Reserve(groups, q, cfg).1.Reserved?
    ensures Asks(q.range) && !q.listFails ==> Reserve(groups, q, cfg).1 == Hangs
  {
    HangsIff(groups, q, cfg);
  }

  /** A store on which the search does not end is never changed by a reservation again, and grants none. */
  lemma {:induction false} HangsForEver(groups: seq<RouterGroup>, qs: seq<Request>, cfg: PortConfig)
    requires !Halts(groups)
    ensures AfterAll(groups, qs, cfg) == groups
    ensures forall i :: 0 <= i < |qs| ==>
              Reserve(groups, qs[i], cfg).0 == groups && !Reserve(groups, qs[i], cfg).1.Reserved?
    ensures forall i :: 0 <= i < |qs| && Asks(qs[i].range) && !qs[i].listFails ==>
              Reserve(groups, qs[i], cfg).1 == Hangs
    decreases |qs|
  {
    forall i | 0 <= i < |qs|
      ensures Reserve(groups, qs[i], cfg).0 == groups && !Reserve(groups, qs[i], cfg).1.Reserved?
      ensures Asks(qs[i].range) && !qs[i].listFails ==> Reserve(groups, qs[i], cfg).1 == Hangs
    {
      HangsUnchanged(groups, qs[i], cfg);
    }
    if qs != [] { HangsForEver(groups, qs[1..], cfg); }
  }

  /**
   So a single reservation of the last port is the last one: granted to a group that was seen, it leaves a store on
   which every later call that gets to search hangs.
   */
  lemma {:induction false} LastPortHangs(groups: seq<RouterGroup>, q: Request, qs: seq<Request>, cfg: PortConfig)
    requires Sound(groups, cfg) && FreshCall(groups, q) && !Unseen(groups, q)
    requires Reserve(groups, q, cfg).1 == Reserved(MAX_PORT)
    ensures var groups' := Reserve(groups, q, cfg).0;
            && AfterAll(groups', qs, cfg) == groups'
            && forall i :: 0 <= i < |qs| && Asks(qs[i].range) && !qs[i].listFails ==>
                 Reserve(groups', qs[i], cfg).1 == Hangs
  {
    ReserveKept(groups, q, cfg);
    HangsForEver(Reserve(groups, q, cfg).0, qs, cfg);
  }

  /** An unseen group is answered for by itself, and a port is returned that no group holds, before or after. */
  lemma {:induction false} FailedLookupReturnsUnstoredPort(groups: seq<RouterGroup>, q: Request, cfg: PortConfig,
                                                           r: Range)
    requires Unseen(groups, q) && Halts(groups)
    requires AsksFor(q.range, r) && NextFree(groups, r).Success?
    requires !q.listFails && !q.create.listLocked && !q.create.listFails
    ensures Reserve(groups, q, cfg).0 == groups
    ensures Reserve(groups, q, cfg).1.Reserved? && LeastUnheld(groups, r, Reserve(groups, q, cfg).1.port)
  {
    var p := NextFree(groups, r).value;
    RequestedIff(q.range, r);
    FoundPort(groups, r, p);
    assert Namesake(groups, RouterGroup("", q.name, TCP, Itoa(p))).Some?;
  }
}
