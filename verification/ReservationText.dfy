/**
 What a reservation is answered, given the text of its range and all that may keep it from storing a port
 (client.go).
 */
module ReservationText {
  import opened Common
  import opened PortRanges
  import opened PortSearch
  import opened PortReservation
  import opened RangeRequests
  import opened RouterGroupRuns
  import opened Reservations

  /** A group holds the ports that its text lists. */
  lemma {:induction false} HoldsPortIff(g: RouterGroup, p: int)
    ensures HoldsPort(g, p) <==>
            exists parts, ranges, i :: Listing(g.ports, parts, ranges) && 0 <= i < |ranges| && Covers(ranges[i], p)
  {
    forall parts, ranges | Listing(g.ports, parts, ranges) ensures Parsed(g.ports) == Success(ranges) {
      ListingParses(g.ports, parts, ranges);
    }
    if HoldsPort(g, p) {
      ParsedIff(g.ports, Parsed(g.ports).value);
      var i :| 0 <= i < |Parsed(g.ports).value| && Covers(Parsed(g.ports).value[i], p);
    }
  }

  // ---------------------------------------------------------------- the answer

  ghost predicate AllHeld(groups: seq<RouterGroup>, r: Range) {
    forall q :: r.start <= q <= r.end ==> HeldBySome(groups, q)
  }

  /** What the search finds, in terms of the ports that groups hold. */
  lemma {:induction false} FreeIff(groups: seq<RouterGroup>, r: Range)
    ensures (NextFree(groups, r).Failure? && NextFree(groups, r).error.BadGroup?) <==>
            exists i :: 0 <= i < |groups| && !Readable(groups[i])
    ensures NextFree(groups, r) == Failure(Exhausted) <==>
            (forall i :: 0 <= i < |groups| ==> Readable(groups[i])) && AllHeld(groups, r)
    ensures NextFree(groups, r).Success? ==> LeastUnheld(groups, r, NextFree(groups, r).value)
  {
    RangesAre(groups, 0);
    forall q ensures GroupRanges(groups).Success? ==> (Taken(GroupRanges(groups).value, q) <==> HeldBySome(groups, q)) {
      RangesAre(groups, q);
    }
  }

  /**
   A call that lists the groups, on a store on which the search ends, with a text that denotes a range: it is told of
   a group without ports if there is one, of exhaustion exactly if every port of the range is held, and any port it
   returns is the least of the range that nobody holds.
   */
  lemma {:induction false} AnswerByText(groups: seq<RouterGroup>, q: Request, cfg: PortConfig, r: Range)
    requires GroupsOk(groups, cfg) && Halts(groups) && !q.listFails
    requires AsksFor(q.range, r)
    ensures var answer := Reserve(groups, q, cfg).1;
            var portless := exists i :: 0 <= i < |groups| && groups[i].ports == "";
            && ((answer.Refused? && answer.error.NoPort? && answer.error.reason.BadGroup?) <==> portless)
            && (answer == Refused(NoPort(Exhausted)) <==> !portless && AllHeld(groups, r))
            && (answer.Reserved? ==> LeastUnheld(groups, r, answer.port))
            && (answer.Reserved? || answer.Panics? || answer == Refused(NotSaved) ||
                (answer.Refused? && answer.error.NoPort?))
  {
    RequestedIff(q.range, r);
    FreeIff(groups, r);
    forall i | 0 <= i < |groups| ensures Readable(groups[i]) <==> groups[i].ports != "" {
      ReadableIff(groups[i], cfg);
    }
    if NextFree(groups, r).Success? && !(q.name == "" && groups == [] && !q.nameReadFails) {
      PlacedOrNot(groups, q, NextFree(groups, r).value, cfg);
    }
  }

  lemma PlacedOrNot(groups: seq<RouterGroup>, q: Request, p: int, cfg: PortConfig)
    ensures var r := Place(groups, q, p, cfg).1; r == Reserved(p) || r == Refused(NotSaved)
  {
  }

  /** A call that does not get to search is told why: by its text, or because the groups cannot be listed. */
  lemma {:induction false} AnswerUnsearched(groups: seq<RouterGroup>, q: Request, cfg: PortConfig)
    ensures var answer := Reserve(groups, q, cfg).1;
            && (answer == Refused(SinglePort) <==>
                  exists r :: ',' !in q.range && WellFormed(r) && r.start == r.end && Denotes(q.range, r))
            && (answer == Refused(MultipleRanges) <==>
                  exists parts, ranges :: Listing(q.range, parts, ranges) && |ranges| > 1)
            && ((answer.Refused? && answer.error.BadRequest?) <==>
                  forall parts, ranges :: !Listing(q.range, parts, ranges))
            && (answer == Refused(NoGroups) <==> Asks(q.range) && q.listFails)
  {
    RefusedIff(q.range);
    AsksIff(q.range);
    var range := Requested(q.range);
    if range.Success? && Halts(groups) && NextFree(groups, range.value).Success? {
      PlacedOrNot(groups, q, NextFree(groups, range.value).value, cfg);
    }
  }

  // ---------------------------------------------------------------- when the free port is returned

  /** The port may be given to a group: it is not reserved, or that is not fatal. */
  predicate Grantable(p: int, cfg: PortConfig) {
    !cfg.failOnConflicts || p !in cfg.reserved
  }

  lemma {:induction false} SinglePortOk(g: RouterGroup, p: int, cfg: PortConfig)
    requires MIN_PORT <= p <= MAX_PORT && g.ports == Itoa(p)
    ensures GroupOk(g, cfg) <==> g.name != "" && g.kind != "" && g.kind != "http" && Grantable(p, cfg)
  {
    ItoaParsed(p);
    var ranges := Parsed(g.ports).value;
    assert ranges == [Range(p, p)];
    if k :| 0 <= k < |cfg.reserved| && cfg.reserved[k] == p { assert Covers(ranges[0], cfg.reserved[k]); }
  }

  /** The group the call asks for is there. */
  ghost predicate Asked(groups: seq<RouterGroup>, q: Request) {
    exists i: nat :: i < |groups| && Wants(groups, q, i)
  }

  /** Nothing on its way keeps the call from storing port `p`, or from being answered with a group that is there. */
  ghost predicate Storable(groups: seq<RouterGroup>, q: Request, p: int, cfg: PortConfig) {
    if !q.nameReadFails && Asked(groups, q) then
      !q.update.readLocked && !q.update.readFails && Unhindered(q.update.save) && Grantable(p, cfg)
    else
      && !q.create.listLocked && !q.create.listFails
      && (Unseen(groups, q) ||
          (q.name != "" && q.create.guid.Some? && Unhindered(q.create.save) && Grantable(p, cfg)))
  }

  lemma {:induction false} UpdateStores(groups: seq<RouterGroup>, q: Request, p: int, cfg: PortConfig, i: nat)
    requires Sound(groups, cfg) && i < |groups| && groups[i].ports != "" && MIN_PORT <= p <= MAX_PORT
    requires !HeldBySome(groups, p)
    ensures UpdateGroup(groups, groups[i].guid, Itoa(p), q.update, cfg).1 == Updated <==>
            !q.update.readLocked && !q.update.readFails && Unhindered(q.update.save) && Grantable(p, cfg)
  {
    assert GroupOk(groups[i], cfg) && Holds(groups, groups[i].guid, i);
    UpdateAnswers(groups, groups[i].guid, Itoa(p), q.update, cfg, i);
    SinglePortOk(groups[i].(ports := Itoa(p)), p, cfg);
    if groups[i].ports == Itoa(p) { HoldsSingle(groups[i], p); }
  }

  lemma {:induction false} CreateStores(groups: seq<RouterGroup>, q: Request, p: int, cfg: PortConfig)
    requires Sound(groups, cfg) && MIN_PORT <= p <= MAX_PORT
    ensures var g := RouterGroup("", q.name, TCP, Itoa(p));
            var r := CreateGroup(groups, g, q.create, cfg).1;
            (r == Created || r.AlreadyThere?) <==>
            && !q.create.listLocked && !q.create.listFails
            && (Known(groups, g) ||
                (q.name != "" && q.create.guid.Some? && Unhindered(q.create.save) && Grantable(p, cfg)))
  {
    var g := RouterGroup("", q.name, TCP, Itoa(p));
    CreateAnswers(groups, g, q.create, cfg);
    SinglePortOk(g, p, cfg);
  }

  lemma {:induction false} TargetIff(groups: seq<RouterGroup>, q: Request)
    ensures Target(groups, q.name).Some? <==> Asked(groups, q)
    ensures Target(groups, q.name).Some? ==>
              Target(groups, q.name).value < |groups| && Wants(groups, q, Target(groups, q.name).value)
  {
    if Target(groups, q.name).Some? { assert Wants(groups, q, Target(groups, q.name).value); }
  }

  /** A free port is stored exactly if nothing keeps the call from storing it. */
  lemma {:induction false} PlacedIff(groups: seq<RouterGroup>, q: Request, p: int, cfg: PortConfig)
    requires Sound(groups, cfg) && MIN_PORT <= p <= MAX_PORT && !HeldBySome(groups, p)
    requires forall i :: 0 <= i < |groups| ==> groups[i].ports != ""
    ensures Place(groups, q, p, cfg).1 == Reserved(p) <==> Storable(groups, q, p, cfg)
  {
    TargetIff(groups, q);
    if !q.nameReadFails && Asked(groups, q) {
      var i := Target(groups, q.name).value;
      assert GroupOk(groups[i], cfg);
      UpdateStores(groups, q, p, cfg, i);
    } else {
      CreateStores(groups, q, p, cfg);
    }
  }

  /**
   With a range that is not all held, in a valid store all of whose groups have ports and none reaches the last one,
   the call returns the least port that nobody holds exactly if nothing keeps it from storing that port.
   */
  lemma {:induction false} FreePortReturned(groups: seq<RouterGroup>, q: Request, cfg: PortConfig, r: Range, p: int)
    requires Sound(groups, cfg) && Halts(groups) && !q.listFails
    requires forall i :: 0 <= i < |groups| ==> groups[i].ports != ""
    requires AsksFor(q.range, r)
    requires LeastUnheld(groups, r, p)
    ensures Reserve(groups, q, cfg).1 == Reserved(p) <==> Storable(groups, q, p, cfg)
    ensures Reserve(groups, q, cfg).1 == Panics <==> q.name == "" && groups == [] && !q.nameReadFails
    ensures !Storable(groups, q, p, cfg) && !Reserve(groups, q, cfg).1.Panics? ==>
              Reserve(groups, q, cfg).1 == Refused(NotSaved)
  {
    RequestedIff(q.range, r);
    FreeIff(groups, r);
    forall i | 0 <= i < |groups| ensures Readable(groups[i]) {
      ReadableIff(groups[i], cfg);
    }
    assert !AllHeld(groups, r);
    assert NextFree(groups, r) == Success(p);
    PlacedIff(groups, q, p, cfg);
    PlacedOrNot(groups, q, p, cfg);
  }
}
