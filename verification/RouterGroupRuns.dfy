/** What creating, updating and deleting router groups answers, writes and preserves. */
module RouterGroupRuns {
  import opened Common
  import opened PortSearch
  import opened PortReservation

  // ---------------------------------------------------------------- what a request is answered, and when

  /** Nothing keeps a save or delete from its database. */
  predicate Unhindered(env: WriteEnv) {
    !env.writeLocked && !env.readLocked && !env.readFails && !env.writeFails
  }

  /** What a save or delete comes to: a lock is seen before the call it guards, and the write comes last. */
  lemma WriteFaultIff(env: WriteEnv)
    ensures WriteFault(env).None? <==> Unhindered(env)
    ensures WriteFault(env) == Some(Locked) <==> env.writeLocked || env.readLocked
  {
  }

  /** Some group has the name and the type of `g`. */
  ghost predicate Known(groups: seq<RouterGroup>, g: RouterGroup) {
    exists i :: 0 <= i < |groups| && groups[i].name == g.name && groups[i].kind == g.kind
  }

  /** A creation gets as far as validating: the list can be read, the group is new, and there is a uuid for it. */
  ghost predicate Fit(groups: seq<RouterGroup>, g: RouterGroup, env: CreateEnv) {
    !env.listLocked && !env.listFails && !Known(groups, g) && env.guid.Some?
  }

  lemma AppendedOk(groups: seq<RouterGroup>, g: RouterGroup, cfg: PortConfig)
    ensures GroupsOk(groups + [g], cfg) <==> GroupsOk(groups, cfg) && GroupOk(g, cfg)
  {
    var all := groups + [g];
    if GroupsOk(all, cfg) {
      assert GroupOk(all[|groups|], cfg);
      forall i | 0 <= i < |groups| ensures GroupOk(groups[i], cfg) {
        assert GroupOk(all[i], cfg);
      }
    }
  }

  /**
   Every answer to a creation, and exactly when it is given. It succeeds if the list can be read, no group has the name
   and type, there is a uuid, all groups are valid and so is the new one, and nothing hinders the save.
   */
  lemma CreateAnswers(groups: seq<RouterGroup>, g: RouterGroup, env: CreateEnv, cfg: PortConfig)
    ensures var r, valid := CreateGroup(groups, g, env, cfg).1, GroupsOk(groups, cfg) && GroupOk(g, cfg);
            && (r == Created <==> Fit(groups, g, env) && valid && Unhindered(env.save))
            && (r.AlreadyThere? <==> !env.listLocked && !env.listFails && Known(groups, g))
            && (r.AlreadyThere? ==> r.group in groups && r.group.name == g.name && r.group.kind == g.kind)
            && (r == NoGuid <==> !env.listLocked && !env.listFails && !Known(groups, g) && env.guid.None?)
            && (r == CreateRejected <==> Fit(groups, g, env) && !valid)
            && (r == CreateFailed(Locked) <==>
                  env.listLocked || (Fit(groups, g, env) && valid && (env.save.writeLocked || env.save.readLocked)))
  {
    if env.guid.Some? { AppendedOk(groups, g.(guid := env.guid.value), cfg); }
  }

  /** Only a creation that succeeds writes, and with a new uuid it adds the group at the end. */
  lemma CreateWrites(groups: seq<RouterGroup>, g: RouterGroup, env: CreateEnv, cfg: PortConfig)
    ensures var (groups', r) := CreateGroup(groups, g, env, cfg);
            && (r != Created ==> groups' == groups)
            && (r == Created && FreshGuid(groups, Create(g, env)) ==>
                  groups' == groups + [RouterGroup(env.guid.value, g.name, g.kind, g.ports)])
  {
  }

  /** Row `i` is the first with the guid, and is more than an empty row. */
  ghost predicate Holds(groups: seq<RouterGroup>, guid: string, i: nat) {
    && i < |groups| && groups[i].guid == guid && groups[i] != RouterGroup("", "", "", "")
    && forall j :: 0 <= j < i ==> groups[j].guid != guid
  }

  /**
   Every answer to an update, and exactly when it is given: the ports that are stored are accepted unseen, others must
   be valid for the group and nothing may hinder the save.
   */
  lemma UpdateAnswers(groups: seq<RouterGroup>, guid: string, ports: string, env: UpdateEnv, cfg: PortConfig, i: nat)
    requires Holds(groups, guid, i)
    ensures var (groups', r) := UpdateGroup(groups, guid, ports, env, cfg);
            var read, same := !env.readLocked && !env.readFails, groups[i].ports == ports;
            var valid := GroupOk(groups[i].(ports := ports), cfg);
            && (r == Updated <==> read && (same || (valid && Unhindered(env.save))))
            && (r == UpdateRejected <==> read && !same && !valid)
            && (r == UpdateFailed(Locked) <==>
                  env.readLocked || (read && !same && valid && (env.save.writeLocked || env.save.readLocked)))
            && r != NotFound
            && groups' == if r == Updated then groups[i := groups[i].(ports := ports)] else groups
  {
    assert ByGuid(groups, guid) == Some(i);
  }

  /** Without such a row nothing is written, and the answer says so if the table could be read. */
  lemma UpdateMissing(groups: seq<RouterGroup>, guid: string, ports: string, env: UpdateEnv, cfg: PortConfig)
    requires forall i: nat :: !Holds(groups, guid, i)
    ensures UpdateGroup(groups, guid, ports, env, cfg) ==
            (groups, if env.readLocked then UpdateFailed(Locked) else if env.readFails then UpdateFailed(Broken)
                     else NotFound)
  {
    var i := ByGuid(groups, guid);
    if i.Some? { assert !Holds(groups, guid, i.value); }
  }

  /** A delete succeeds if the row is there and nothing hinders it, and then leaves the others as they were. */
  lemma DeleteAnswers(groups: seq<RouterGroup>, guid: string, env: WriteEnv)
    ensures var (groups', r) := DeleteGroup(groups, guid, env);
            var there, read := exists i: nat :: Holds(groups, guid, i), !env.readLocked && !env.readFails;
            && (r == Deleted <==> there && Unhindered(env))
            && (r == NoSuchGroup <==> !there && !env.writeLocked && read)
            && (r == DeleteFailed(Locked) <==> env.writeLocked || env.readLocked)
            && (r != Deleted ==> groups' == groups)
            && (r == Deleted ==> forall g :: g in groups' <==> g in groups && g.guid != guid)
  {
    var i := ByGuid(groups, guid);
    if i.Some? && groups[i.value] != NO_GROUP {
      assert Holds(groups, guid, i.value);
    } else {
      forall j: nat ensures !Holds(groups, guid, j) {}
    }
  }

  /** A save over a row keeps its guid, takes the ports, and the name and type unless they are empty. */
  lemma SavedColumns(groups: seq<RouterGroup>, g: RouterGroup, i: nat)
    requires i < |groups| && groups[i].guid == g.guid && forall j :: 0 <= j < i ==> groups[j].guid != g.guid
    ensures var groups' := SavedGroups(groups, g);
            && |groups'| == |groups| && (forall j :: 0 <= j < |groups| && j != i ==> groups'[j] == groups[j])
            && groups'[i].guid == g.guid && groups'[i].ports == g.ports
            && groups'[i].name == (if g.name != "" then g.name else groups[i].name)
            && groups'[i].kind == (if g.kind != "" then g.kind else groups[i].kind)
  {
    assert ByGuid(groups, g.guid) == Some(i);
  }

  // ---------------------------------------------------------------- runs of requests

  datatype GroupRequest =
    | Create(group: RouterGroup, createEnv: CreateEnv)
    | Update(guid: string, ports: string, updateEnv: UpdateEnv)
    | Delete(guid: string, deleteEnv: WriteEnv)

  ghost function Served(groups: seq<RouterGroup>, q: GroupRequest, cfg: PortConfig): seq<RouterGroup> {
    match q
    case Create(g, env) => CreateGroup(groups, g, env, cfg).0
    case Update(guid, ports, env) => UpdateGroup(groups, guid, ports, env, cfg).0
    case Delete(guid, env) => DeleteGroup(groups, guid, env).0
  }

  ghost function AfterRequests(groups: seq<RouterGroup>, qs: seq<GroupRequest>, cfg: PortConfig): seq<RouterGroup>
    decreases |qs|
  {
    if qs == [] then groups else AfterRequests(Served(groups, qs[0], cfg), qs[1..], cfg)
  }

  ghost predicate Apart(a: RouterGroup, b: RouterGroup) {
    a.guid != b.guid && !(a.name == b.name && a.kind == b.kind)
  }

  /** Every group is valid, and no two share a guid, or both name and type. */
  ghost predicate Sound(groups: seq<RouterGroup>, cfg: PortConfig) {
    GroupsOk(groups, cfg) && AllApart(groups)
  }

  ghost predicate AllApart(groups: seq<RouterGroup>) {
    forall i, j :: 0 <= i < j < |groups| ==> Apart(groups[i], groups[j])
  }

  /** A new group comes with a uuid that no group has. */
  ghost predicate FreshGuid(groups: seq<RouterGroup>, q: GroupRequest) {
    q.Create? && q.createEnv.guid.Some? ==> forall i :: 0 <= i < |groups| ==> groups[i].guid != q.createEnv.guid.value
  }

  ghost predicate FreshRun(groups: seq<RouterGroup>, qs: seq<GroupRequest>, cfg: PortConfig)
    decreases |qs|
  {
    qs == [] || (FreshGuid(groups, qs[0]) && FreshRun(Served(groups, qs[0], cfg), qs[1..], cfg))
  }

  lemma ConsApart(first: RouterGroup, rest: seq<RouterGroup>)
    requires AllApart(rest) && forall g :: g in rest ==> Apart(first, g)
    ensures AllApart([first] + rest)
  {
  }

  lemma {:induction false} WithoutApart(groups: seq<RouterGroup>, guid: string)
    requires AllApart(groups)
    ensures AllApart(Without(groups, guid))
    decreases |groups|
  {
    if groups != [] {
      var first, rest := groups[0], Without(groups[1..], guid);
      assert AllApart(groups[1..]);
      WithoutApart(groups[1..], guid);
      if first.guid != guid {
        forall g | g in rest ensures Apart(first, g) {
          var k :| 0 <= k < |groups[1..]| && groups[1..][k] == g;
          assert groups[k + 1] == g;
        }
        ConsApart(first, rest);
        assert Without(groups, guid) == [first] + rest;
      }
    }
  }

  lemma WithoutSound(groups: seq<RouterGroup>, guid: string, cfg: PortConfig)
    requires Sound(groups, cfg)
    ensures Sound(Without(groups, guid), cfg)
  {
    WithoutApart(groups, guid);
    var r := Without(groups, guid);
    forall i | 0 <= i < |r| ensures GroupOk(r[i], cfg) {
      assert r[i] in groups;
    }
  }

  lemma SetSound(groups: seq<RouterGroup>, i: nat, ports: string, cfg: PortConfig)
    requires Sound(groups, cfg) && i < |groups| && GroupOk(groups[i].(ports := ports), cfg)
    ensures Sound(groups[i := groups[i].(ports := ports)], cfg)
  {
  }

  /** An update changes nothing, or the ports of one group, which stays valid. */
  lemma UpdateWrites(groups: seq<RouterGroup>, guid: string, ports: string, env: UpdateEnv, cfg: PortConfig)
    ensures var groups', i := UpdateGroup(groups, guid, ports, env, cfg).0, ByGuid(groups, guid);
            groups' == groups ||
            (i.Some? && GroupOk(groups[i.value].(ports := ports), cfg)
             && groups' == groups[i.value := groups[i.value].(ports := ports)])
  {
  }

  lemma UpdateSound(groups: seq<RouterGroup>, guid: string, ports: string, env: UpdateEnv, cfg: PortConfig)
    requires Sound(groups, cfg)
    ensures Sound(UpdateGroup(groups, guid, ports, env, cfg).0, cfg)
  {
    UpdateWrites(groups, guid, ports, env, cfg);
    if UpdateGroup(groups, guid, ports, env, cfg).0 != groups {
      SetSound(groups, ByGuid(groups, guid).value, ports, cfg);
    }
  }

  lemma CreateSound(groups: seq<RouterGroup>, g: RouterGroup, env: CreateEnv, cfg: PortConfig)
    requires Sound(groups, cfg) && FreshGuid(groups, Create(g, env))
    ensures Sound(CreateGroup(groups, g, env, cfg).0, cfg)
  {
    if CreateGroup(groups, g, env, cfg).1 == Created {
      assert CreateGroup(groups, g, env, cfg).0 == groups + [g.(guid := env.guid.value)];
    }
  }

  /**
   In every run of requests, whatever fails on their way, all groups stay valid and distinct, by guid and by name
   and type.
   */
  lemma {:induction false} RunKeepsSound(groups: seq<RouterGroup>, qs: seq<GroupRequest>, cfg: PortConfig)
    requires Sound(groups, cfg) && FreshRun(groups, qs, cfg)
    ensures Sound(AfterRequests(groups, qs, cfg), cfg)
    decreases |qs|
  {
    if qs != [] {
      match qs[0] {
        case Create(g, env) => CreateSound(groups, g, env, cfg);
        case Update(guid, ports, env) => UpdateSound(groups, guid, ports, env, cfg);
        case Delete(guid, env) => WithoutSound(groups, guid, cfg);
      }
      RunKeepsSound(Served(groups, qs[0], cfg), qs[1..], cfg);
    }
  }

  /**
   Once a creation was answered with a group, a request for the same name and type leaves the groups alone,
   whatever its ports, and is answered with a group unless the list of groups cannot be read.
   */
  lemma CreateTwice(groups: seq<RouterGroup>, g: RouterGroup, first: CreateEnv, again: RouterGroup, second: CreateEnv,
                    cfg: PortConfig)
    requires FreshGuid(groups, Create(g, first)) && again.name == g.name && again.kind == g.kind
    requires var r := CreateGroup(groups, g, first, cfg).1; r == Created || r.AlreadyThere?
    ensures var groups' := CreateGroup(groups, g, first, cfg).0;
            && CreateGroup(groups', again, second, cfg).0 == groups'
            && (CreateGroup(groups', again, second, cfg).1.AlreadyThere? <==> !second.listLocked && !second.listFails)
  {
    var groups' := CreateGroup(groups, g, first, cfg).0;
    if CreateGroup(groups, g, first, cfg).1 == Created {
      assert groups'[|groups|] == g.(guid := first.guid.value);
    }
  }
}
