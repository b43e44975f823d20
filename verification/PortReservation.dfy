/** Router groups as the API serves them, and the client's port reservation on top (handlers, client.go). */
module PortReservation {
  import opened Common
  import opened PortRanges
  import opened PortSearch

  const TCP := "tcp"
  const HTTP := "http"
  const NO_GROUP := RouterGroup("", "", "", "")

  datatype PortConfig = PortConfig(failOnConflicts: bool, reserved: seq<uint16>)

  datatype GroupError =
    | MissingName | MissingType | MissingPorts | HttpWithPorts | BadReservablePorts(error: ValidityError)

  // ---------------------------------------------------------------- validity of groups

  ghost predicate PortsOk(ports: string, cfg: PortConfig) {
    Parsed(ports).Success? && Disjoint(Parsed(ports).value)
    && (cfg.failOnConflicts ==> !TouchesReserved(Parsed(ports).value, cfg.reserved))
  }

  ghost predicate GroupOk(g: RouterGroup, cfg: PortConfig) {
    g.name != "" && g.kind != "" && if g.ports == "" then g.kind != TCP else g.kind != HTTP && PortsOk(g.ports, cfg)
  }

  method ValidateGroup(g: RouterGroup, cfg: PortConfig) returns (err: Option<GroupError>)
    ensures err.None? <==> GroupOk(g, cfg)
    ensures err == Some(MissingName) <==> g.name == ""
    ensures err == Some(MissingType) <==> g.name != "" && g.kind == ""
    ensures err == Some(MissingPorts) <==> g.name != "" && g.kind == "tcp" && g.ports == ""
    ensures err == Some(HttpWithPorts) <==> g.name != "" && g.kind == "http" && g.ports != ""
    ensures err.Some? && err.value.BadReservablePorts? <==>
            && g.name != "" && g.kind != "" && g.kind != "http" && g.ports != ""
            && !(&& Parsed(g.ports).Success? && Disjoint(Parsed(g.ports).value)
                 && !(cfg.failOnConflicts && TouchesReserved(Parsed(g.ports).value, cfg.reserved)))
  {
    if g.name == "" { return Some(MissingName); }
    if g.kind == "" { return Some(MissingType); }
    if g.ports == "" { return if g.kind == TCP then Some(MissingPorts) else None; }
    if g.kind == HTTP { return Some(HttpWithPorts); }
    var bad := Validate(g.ports, cfg.failOnConflicts, cfg.reserved);
    return if bad.Some? then Some(BadReservablePorts(bad.value)) else None;
  }

  ghost predicate GroupsOk(gs: seq<RouterGroup>, cfg: PortConfig) {
    forall i :: 0 <= i < |gs| ==> GroupOk(gs[i], cfg)
  }

  method ValidateGroups(gs: seq<RouterGroup>, cfg: PortConfig) returns (err: Option<GroupError>)
    ensures err.None? <==> GroupsOk(gs, cfg)
  {
    for i := 0 to |gs|
      invariant forall j :: 0 <= j < i ==> GroupOk(gs[j], cfg)
    {
      err := ValidateGroup(gs[i], cfg);
      if err.Some? { return; }
    }
    return None;
  }

  // ---------------------------------------------------------------- the table of groups

  function ByGuid(groups: seq<RouterGroup>, guid: string): (r: Option<nat>)
    ensures r.Some? ==> r.value < |groups| && groups[r.value].guid == guid
                        && forall j :: 0 <= j < r.value ==> groups[j].guid != guid
    ensures r.None? ==> forall j :: 0 <= j < |groups| ==> groups[j].guid != guid
  {
    if groups == [] then None
    else if groups[0].guid == guid then Some(0)
    else var rest := ByGuid(groups[1..], guid); if rest.None? then None else Some(rest.value + 1)
  }

  function ByName(groups: seq<RouterGroup>, name: string): (r: Option<nat>)
    ensures r.Some? ==> r.value < |groups| && groups[r.value].name == name
                        && forall j :: 0 <= j < r.value ==> groups[j].name != name
    ensures r.None? ==> forall j :: 0 <= j < |groups| ==> groups[j].name != name
  {
    if groups == [] then None
    else if groups[0].name == name then Some(0)
    else var rest := ByName(groups[1..], name); if rest.None? then None else Some(rest.value + 1)
  }

  /** A save overwrites name and type only with something; the ports always. */
  function Merged(existing: RouterGroup, current: RouterGroup): RouterGroup {
    RouterGroup(existing.guid,
                if current.name != "" then current.name else existing.name,
                if current.kind != "" then current.kind else existing.kind,
                current.ports)
  }

  /** The database's own save: by primary key, inserting a row that is not there. */
  function Put(groups: seq<RouterGroup>, g: RouterGroup): seq<RouterGroup> {
    var i := ByGuid(groups, g.guid);
    if i.Some? then groups[i.value := g] else groups + [g]
  }

  function SavedGroups(groups: seq<RouterGroup>, g: RouterGroup): seq<RouterGroup> {
    var i := ByGuid(groups, g.guid);
    if i.Some? then groups[i.value := Merged(groups[i.value], g)] else groups + [g]
  }

  /** The first group of the same name and type. */
  function Namesake(groups: seq<RouterGroup>, g: RouterGroup): (r: Option<nat>)
    ensures r.Some? ==> r.value < |groups| && groups[r.value].name == g.name && groups[r.value].kind == g.kind
                        && forall j :: 0 <= j < r.value ==> !(groups[j].name == g.name && groups[j].kind == g.kind)
    ensures r.None? ==> forall j :: 0 <= j < |groups| ==> !(groups[j].name == g.name && groups[j].kind == g.kind)
  {
    if groups == [] then None
    else if groups[0].name == g.name && groups[0].kind == g.kind then Some(0)
    else var rest := Namesake(groups[1..], g); if rest.None? then None else Some(rest.value + 1)
  }

  /**
   What one save or delete finds on its way: the two backup locks, the read and the write.
   Each check and each database call of a request may find something else.
   */
  datatype WriteEnv = WriteEnv(writeLocked: bool, readLocked: bool, readFails: bool, writeFails: bool)

  /** Why a call to the database came to nothing. */
  datatype Fault = Locked | Broken

  function ReadFault(locked: bool, fails: bool): Option<Fault> {
    if locked then Some(Locked) else if fails then Some(Broken) else None
  }

  function WriteFault(env: WriteEnv): Option<Fault> {
    if env.writeLocked then Some(Locked)
    else
      var read := ReadFault(env.readLocked, env.readFails);
      if read.Some? then read else if env.writeFails then Some(Broken) else None
  }

  /** What a request to create a group finds: the list of groups, a uuid, and the save. */
  datatype CreateEnv = CreateEnv(listLocked: bool, listFails: bool, guid: Option<string>, save: WriteEnv)

  /** What a request to update one finds: the read, and the save. */
  datatype UpdateEnv = UpdateEnv(readLocked: bool, readFails: bool, save: WriteEnv)

  datatype CreateResponse =
    | AlreadyThere(group: RouterGroup) | CreateRejected | Created | NoGuid | CreateFailed(fault: Fault)
  datatype UpdateResponse = NotFound | UpdateRejected | Updated | UpdateFailed(fault: Fault)
  datatype DeleteResponse = Deleted | NoSuchGroup | DeleteFailed(fault: Fault)

  ghost function CreateGroup(groups: seq<RouterGroup>, g: RouterGroup, env: CreateEnv, cfg: PortConfig)
    : (seq<RouterGroup>, CreateResponse)
  {
    var unread, i := ReadFault(env.listLocked, env.listFails), Namesake(groups, g);
    if unread.Some? then (groups, CreateFailed(unread.value))
    else if i.Some? then (groups, AlreadyThere(groups[i.value]))
    else if env.guid.None? then (groups, NoGuid)
    else if !GroupsOk(groups + [g.(guid := env.guid.value)], cfg) then (groups, CreateRejected)
    else if WriteFault(env.save).Some? then (groups, CreateFailed(WriteFault(env.save).value))
    else (SavedGroups(groups, g.(guid := env.guid.value)), Created)
  }

  ghost function UpdateGroup(groups: seq<RouterGroup>, guid: string, ports: string, env: UpdateEnv, cfg: PortConfig)
    : (seq<RouterGroup>, UpdateResponse)
  {
    var unread, i := ReadFault(env.readLocked, env.readFails), ByGuid(groups, guid);
    if unread.Some? then (groups, UpdateFailed(unread.value))
    else if i.None? || groups[i.value] == NO_GROUP then (groups, NotFound)
    else if groups[i.value].ports == ports then (groups, Updated)
    else if !GroupOk(groups[i.value].(ports := ports), cfg) then (groups, UpdateRejected)
    else if WriteFault(env.save).Some? then (groups, UpdateFailed(WriteFault(env.save).value))
    else (SavedGroups(groups, groups[i.value].(ports := ports)), Updated)
  }

  /** A delete removes every row with the guid. */
  function Without(groups: seq<RouterGroup>, guid: string): (r: seq<RouterGroup>)
    ensures forall g :: g in r <==> g in groups && g.guid != guid
  {
    if groups == [] then []
    else (if groups[0].guid == guid then [] else [groups[0]]) + Without(groups[1..], guid)
  }

  ghost function DeleteGroup(groups: seq<RouterGroup>, guid: string, env: WriteEnv)
    : (seq<RouterGroup>, DeleteResponse)
  {
    var unread, i := ReadFault(env.readLocked, env.readFails), ByGuid(groups, guid);
    if env.writeLocked then (groups, DeleteFailed(Locked))
    else if unread.Some? then (groups, DeleteFailed(unread.value))
    else if i.None? || groups[i.value] == NO_GROUP then (groups, NoSuchGroup)
    else if env.writeFails then (groups, DeleteFailed(Broken))
    else (Without(groups, guid), Deleted)
  }

  class RouterGroupService {
    var groups: seq<RouterGroup>
    const config: PortConfig

    constructor (config: PortConfig)
      ensures groups == [] && this.config == config
    {
      this.config := config;
      groups := [];
    }

    method ReadRouterGroup(guid: string, locked: bool, fails: bool) returns (r: Result<RouterGroup, Fault>)
      ensures r == match ReadFault(locked, fails)
                   case Some(fault) => Failure(fault)
                   case None => Success(match ByGuid(groups, guid) case Some(i) => groups[i] case None => NO_GROUP)
    {
      if locked { return Failure(Locked); }
      if fails { return Failure(Broken); }
      for i := 0 to |groups|
        invariant forall j :: 0 <= j < i ==> groups[j].guid != guid
      {
        if groups[i].guid == guid { return Success(groups[i]); }
      }
      return Success(NO_GROUP);
    }

    method ReadRouterGroupByName(name: string) returns (g: RouterGroup)
      ensures g == match ByName(groups, name) case Some(i) => groups[i] case None => NO_GROUP
    {
      for i := 0 to |groups|
        invariant forall j :: 0 <= j < i ==> groups[j].name != name
      {
        if groups[i].name == name { return groups[i]; }
      }
      return NO_GROUP;
    }

    method SaveRouterGroup(g: RouterGroup, env: WriteEnv) returns (err: Option<Fault>)
      modifies this
      ensures err == WriteFault(env)
      ensures groups == if err.Some? then old(groups) else SavedGroups(old(groups), g)
    {
      if env.writeLocked { return Some(Locked); }
      var read := ReadRouterGroup(g.guid, env.readLocked, env.readFails);
      if read.Failure? { return Some(read.error); }
      var existing := read.value;
      if existing.guid == g.guid {
        if g.kind != "" { existing := existing.(kind := g.kind); }
        if g.name != "" { existing := existing.(name := g.name); }
        existing := existing.(ports := g.ports);
        if env.writeFails { return Some(Broken); }
        groups := Put(groups, existing);
      } else {
        if env.writeFails { return Some(Broken); }
        groups := groups + [g];
      }
      return None;
    }

    /** A group of the same name and type answers for the new one; otherwise all groups must be valid with it. */
    method CreateRouterGroup(g: RouterGroup, env: CreateEnv) returns (r: CreateResponse)
      modifies this
      ensures (groups, r) == CreateGroup(old(groups), g, env, config)
    {
      if env.listLocked { return CreateFailed(Locked); }
      if env.listFails { return CreateFailed(Broken); }
      for i := 0 to |groups|
        invariant groups == old(groups)
        invariant forall j :: 0 <= j < i ==> !(groups[j].name == g.name && groups[j].kind == g.kind)
      {
        if groups[i].name == g.name && groups[i].kind == g.kind { return AlreadyThere(groups[i]); }
      }
      if env.guid.None? { return NoGuid; }
      var created := g.(guid := env.guid.value);
      var bad := ValidateGroups(groups + [created], config);
      if bad.Some? { return CreateRejected; }
      var err := SaveRouterGroup(created, env.save);
      return if err.Some? then CreateFailed(err.value) else Created;
    }

    method UpdateRouterGroup(guid: string, ports: string, env: UpdateEnv) returns (r: UpdateResponse)
      modifies this
      ensures (groups, r) == UpdateGroup(old(groups), guid, ports, env, config)
    {
      var read := ReadRouterGroup(guid, env.readLocked, env.readFails);
      if read.Failure? { return UpdateFailed(read.error); }
      var g := read.value;
      if g == NO_GROUP { return NotFound; }
      if g.ports != ports {
        g := g.(ports := ports);
        var bad := ValidateGroup(g, config);
        if bad.Some? { return UpdateRejected; }
        var err := SaveRouterGroup(g, env.save);
        if err.Some? { return UpdateFailed(err.value); }
      }
      return Updated;
    }

    /** What is deleted is gone afterwards, and every other group is kept. */
    method DeleteRouterGroup(guid: string, env: WriteEnv) returns (r: DeleteResponse)
      modifies this
      ensures (groups, r) == DeleteGroup(old(groups), guid, env)
    {
      if env.writeLocked { return DeleteFailed(Locked); }
      var read := ReadRouterGroup(guid, env.readLocked, env.readFails);
      if read.Failure? { return DeleteFailed(read.error); }
      if read.value == NO_GROUP { return NoSuchGroup; }
      if env.writeFails { return DeleteFailed(Broken); }
      groups := Without(groups, guid);
      return Deleted;
    }
  }

  // ---------------------------------------------------------------- reserving a port

  datatype ReserveError =
    | BadRequest(error: PortError) | MultipleRanges | SinglePort | NoGroups | NoPort(reason: SearchError) | NotSaved

  /** A reservation can also crash the client, or never return. */
  datatype Reservation = Reserved(port: int) | Refused(error: ReserveError) | Panics | Hangs

  /** One call: the group's name and the requested range, and what its requests to the server come to. */
  datatype Request =
    Request(name: string, range: string, listFails: bool, nameReadFails: bool, create: CreateEnv, update: UpdateEnv)

  /** The request names one range of more than one port. */
  ghost function Requested(range: string): Result<Range, ReserveError> {
    var ranges := Parsed(range);
    if ranges.Failure? then Failure(BadRequest(ranges.error))
    else if |ranges.value| > 1 then Failure(MultipleRanges)
    else if ranges.value[0].start == ranges.value[0].end then Failure(SinglePort)
    else Success(ranges.value[0])
  }

  /** The group a reservation will go to: by name, except that the empty name lists all groups and takes the first. */
  function Target(groups: seq<RouterGroup>, name: string): Option<nat> {
    if name == "" then (if groups == [] then None else Some(0)) else ByName(groups, name)
  }

  /** The group the client finds for a name; none when the look-up fails. */
  function Found(groups: seq<RouterGroup>, q: Request): RouterGroup {
    var i := if q.nameReadFails then None else Target(groups, q.name);
    if i.Some? then groups[i.value] else NO_GROUP
  }

  /** Writing a free port to the group found, or to a new one. */
  ghost function Place(groups: seq<RouterGroup>, q: Request, port: int, cfg: PortConfig)
    : (seq<RouterGroup>, Reservation)
  {
    var existing := Found(groups, q);
    if existing != NO_GROUP then
      var (after, response) := UpdateGroup(groups, existing.guid, Itoa(port), q.update, cfg);
      (after, if response == Updated then Reserved(port) else Refused(NotSaved))
    else
      var (after, response) := CreateGroup(groups, RouterGroup("", q.name, TCP, Itoa(port)), q.create, cfg);
      (after, if response == Created || response.AlreadyThere? then Reserved(port) else Refused(NotSaved))
  }

  /** One call, given what the search for a free port comes to; `None` is a search that never ends. */
  ghost function ReserveWith(groups: seq<RouterGroup>, q: Request, cfg: PortConfig,
                             free: Option<Result<int, SearchError>>)
    : (seq<RouterGroup>, Reservation)
  {
    var range := Requested(q.range);
    if range.Failure? then (groups, Refused(range.error))
    else if q.listFails then (groups, Refused(NoGroups))
    else if free.None? then (groups, Hangs)
    else if free.value.Failure? then (groups, Refused(NoPort(free.value.error)))
    else if q.name == "" && groups == [] && !q.nameReadFails then (groups, Panics)
    else Place(groups, q, free.value.value, cfg)
  }

  ghost function Reserve(groups: seq<RouterGroup>, q: Request, cfg: PortConfig): (seq<RouterGroup>, Reservation) {
    var range := Requested(q.range);
    ReserveWith(groups, q, cfg, if range.Success? && Halts(groups) then Some(NextFree(groups, range.value)) else None)
  }

  /**
   The client's call, with at most `fuel` tests of each loop's guard: `Hangs` is a loop that was
   still running then. Any number of tests from 65537 on gives the same answer.
   */
  method ReservePort(service: RouterGroupService, q: Request, fuel: nat) returns (r: Reservation)
    modifies service
    ensures Requested(q.range).Failure? || q.listFails ==>
              (service.groups, r) == Reserve(old(service.groups), q, service.config)
    ensures Requested(q.range).Success? ==>
              (service.groups, r) == ReserveWith(old(service.groups), q, service.config,
                                                 Search(old(service.groups), Requested(q.range).value, fuel))
    ensures ENOUGH <= fuel ==> (service.groups, r) == Reserve(old(service.groups), q, service.config)
  {
    var ranges := Parse(q.range);
    if ranges.Failure? { return Refused(BadRequest(ranges.error)); }
    if |ranges.value| > 1 { return Refused(MultipleRanges); }
    if ranges.value[0].start == ranges.value[0].end { return Refused(SinglePort); }

    if q.listFails { return Refused(NoGroups); }
    SearchEndsIff(service.groups, ranges.value[0]);
    var search := GetNextAvailablePort(service.groups, ranges.value[0], fuel);
    if search.None? { return Hangs; }
    if search.value.Failure? { return Refused(NoPort(search.value.error)); }
    var free := search.value.value;
    r := StorePort(service, q, free);
  }

  /** The second half of the call: look the group up by name, then update or create it. */
  method StorePort(service: RouterGroupService, q: Request, free: int) returns (r: Reservation)
    modifies service
    ensures (service.groups, r) ==
            if q.name == "" && old(service.groups) == [] && !q.nameReadFails then (old(service.groups), Panics)
            else Place(old(service.groups), q, free, service.config)
  {
    var ports := Itoa(free);
    var group := RouterGroup("", q.name, TCP, ports);

    var existing := NO_GROUP;
    if !q.nameReadFails {
      if q.name == "" {
        if service.groups == [] { return Panics; }
        existing := service.groups[0];
      } else {
        existing := service.ReadRouterGroupByName(q.name);
      }
    }

    if existing != NO_GROUP {
      existing := existing.(ports := ports);
      var response := service.UpdateRouterGroup(existing.guid, existing.ports, q.update);
      if response != Updated { return Refused(NotSaved); }
    } else {
      var response := service.CreateRouterGroup(group, q.create);
      if response != Created && !response.AlreadyThere? { return Refused(NotSaved); }
    }
    return Reserved(free);
  }
}
