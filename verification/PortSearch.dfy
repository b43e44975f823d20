/** The search for a free port, with its 16-bit counters (client.go). */
module PortSearch {
  import opened Common
  import opened PortRanges

  datatype RouterGroup = RouterGroup(guid: string, name: string, kind: string, ports: string)

  datatype SearchError = BadGroup(error: PortError) | Exhausted

  /** Counting up wraps. */
  function Next16(p: uint16): uint16 { (p + 1) % 0x1_0000 }

  ghost predicate Taken(ranges: seq<Range>, p: int) {
    exists i :: 0 <= i < |ranges| && Covers(ranges[i], p)
  }

  /** All ranges of all groups, or the error of the first group that does not parse. */
  function GroupRanges(groups: seq<RouterGroup>): (r: Result<seq<Range>, PortError>)
    ensures r.Success? ==> forall i :: 0 <= i < |r.value| ==> WellFormed(r.value[i])
  {
    if groups == [] then Success([]) else
    var first := Parsed(groups[0].ports);
    if first.Failure? then first else
    var rest := GroupRanges(groups[1..]);
    if rest.Failure? then rest else Success(first.value + rest.value)
  }

  /** The least free port between `lo` and `hi`, if there is one. */
  ghost function LeastFree(ranges: seq<Range>, lo: int, hi: int): (r: Option<int>)
    ensures r.Some? ==> lo <= r.value <= hi && !Taken(ranges, r.value)
    ensures r.Some? ==> forall q :: lo <= q < r.value ==> Taken(ranges, q)
    ensures r.None? ==> forall q :: lo <= q <= hi ==> Taken(ranges, q)
    decreases hi - lo
  {
    if lo > hi then None else if !Taken(ranges, lo) then Some(lo) else LeastFree(ranges, lo + 1, hi)
  }

  /** What the search is for. */
  ghost function NextFree(groups: seq<RouterGroup>, range: Range): Result<int, SearchError> {
    var ranges := GroupRanges(groups);
    if ranges.Failure? then Failure(BadGroup(ranges.error)) else
    match LeastFree(ranges.value, range.start, range.end)
    case Some(p) => Success(p)
    case None => Failure(Exhausted)
  }

  ghost predicate EndsBelowTop(ranges: seq<Range>) {
    forall i :: 0 <= i < |ranges| ==> ranges[i].end < MAX_PORT
  }

  /** No group the search gets to has a range up to the last port. */
  ghost predicate Halts(groups: seq<RouterGroup>) {
    groups == [] ||
    var first := Parsed(groups[0].ports);
    first.Failure? || (EndsBelowTop(first.value) && Halts(groups[1..]))
  }

  // ---------------------------------------------------------------- the loops, step by step

  /** The marking loop for one range, cut off after `fuel` tests of its guard. */
  function Mark(p: uint16, end: uint16, marked: set<int>, fuel: nat): Option<set<int>>
    decreases fuel
  {
    if fuel == 0 then None
    else if p <= end then Mark(Next16(p), end, marked + {p}, fuel - 1)
    else Some(marked)
  }

  function MarkRanges(ranges: seq<Range>, marked: set<int>, fuel: nat): Option<set<int>> {
    if ranges == [] then Some(marked) else
    var first := Mark(ranges[0].start, ranges[0].end, marked, fuel);
    if first.None? then None else MarkRanges(ranges[1..], first.value, fuel)
  }

  function MarkGroups(groups: seq<RouterGroup>, marked: set<int>, fuel: nat): Option<Result<set<int>, PortError>> {
    if groups == [] then Some(Success(marked)) else
    var parsed := Parsed(groups[0].ports);
    if parsed.Failure? then Some(Failure(parsed.error)) else
    var first := MarkRanges(parsed.value, marked, fuel);
    if first.None? then None else MarkGroups(groups[1..], first.value, fuel)
  }

  function Scan(i: uint16, end: uint16, marked: set<int>, fuel: nat): Option<Option<int>>
    decreases fuel
  {
    if fuel == 0 then None
    else if i <= end then
      if i !in marked then Some(Some(i)) else Scan(Next16(i), end, marked, fuel - 1)
    else Some(None)
  }

  /** The whole search, each of its loops cut off after `fuel` tests. */
  function Search(groups: seq<RouterGroup>, range: Range, fuel: nat): Option<Result<int, SearchError>> {
    var marked := MarkGroups(groups, {}, fuel);
    if marked.None? then None
    else if marked.value.Failure? then Some(Failure(BadGroup(marked.value.error)))
    else
      var free := Scan(range.start, range.end, marked.value.value, fuel);
      if free.None? then None
      else if free.value.Some? then Some(Success(free.value.value)) else Some(Failure(Exhausted))
  }

  const ENOUGH: nat := 0x1_0001

  ghost predicate Marks(marked: set<int>, ranges: seq<Range>, result: set<int>) {
    forall q: int :: q in result <==> q in marked || Taken(ranges, q)
  }

  lemma {:induction false} MarkEnds(p: uint16, end: uint16, marked: set<int>, fuel: nat)
    requires end < MAX_PORT && p <= end + 1 && end - p + 2 <= fuel
    ensures Mark(p, end, marked, fuel).Some?
    ensures forall q: int :: q in Mark(p, end, marked, fuel).value <==> q in marked || p <= q <= end
    decreases fuel
  {
    if p <= end { MarkEnds(p + 1, end, marked + {p}, fuel - 1); }
  }

  /** A range up to the last port is never done: after it the counter starts again at 0. */
  lemma {:induction false} MarkNeverEnds(p: uint16, marked: set<int>, fuel: nat)
    ensures Mark(p, MAX_PORT, marked, fuel) == None
    decreases fuel
  {
    if fuel > 0 { MarkNeverEnds(Next16(p), marked + {p}, fuel - 1); }
  }

  lemma TakenConcat(a: seq<Range>, b: seq<Range>, q: int)
    ensures Taken(a + b, q) <==> Taken(a, q) || Taken(b, q)
  {
    if Taken(a, q) {
      var i :| 0 <= i < |a| && Covers(a[i], q);
      assert Covers((a + b)[i], q);
    }
    if Taken(b, q) {
      var i :| 0 <= i < |b| && Covers(b[i], q);
      assert Covers((a + b)[|a| + i], q);
    }
    if Taken(a + b, q) {
      var i :| 0 <= i < |a + b| && Covers((a + b)[i], q);
      if i >= |a| { assert Covers(b[i - |a|], q); } else { assert Covers(a[i], q); }
    }
  }

  lemma {:induction false} MarkRangesEnds(ranges: seq<Range>, marked: set<int>, fuel: nat)
    requires EndsBelowTop(ranges) && (forall i :: 0 <= i < |ranges| ==> WellFormed(ranges[i])) && ENOUGH <= fuel
    ensures MarkRanges(ranges, marked, fuel).Some?
    ensures Marks(marked, ranges, MarkRanges(ranges, marked, fuel).value)
    decreases |ranges|
  {
    if ranges != [] {
      var first, rest := ranges[0], ranges[1..];
      MarkEnds(first.start, first.end, marked, fuel);
      var marked' := Mark(first.start, first.end, marked, fuel).value;
      MarkRangesEnds(rest, marked', fuel);
      assert ranges == [first] + rest;
      forall q: int ensures q in MarkRanges(ranges, marked, fuel).value <==> q in marked || Taken(ranges, q) {
        TakenConcat([first], rest, q);
        assert Taken([first], q) <==> Covers(first, q) by { assert Covers([first][0], q) <==> Covers(first, q); }
      }
    }
  }

  lemma {:induction false} MarkRangesNeverEnds(ranges: seq<Range>, marked: set<int>, fuel: nat)
    requires !EndsBelowTop(ranges)
    ensures MarkRanges(ranges, marked, fuel) == None
    decreases |ranges|
  {
    var first, rest := ranges[0], ranges[1..];
    if first.end == MAX_PORT {
      MarkNeverEnds(first.start, marked, fuel);
    } else {
      var i :| 0 <= i < |ranges| && ranges[i].end >= MAX_PORT;
      assert rest[i - 1] == ranges[i];
      var marked' := Mark(first.start, first.end, marked, fuel);
      if marked'.Some? { MarkRangesNeverEnds(rest, marked'.value, fuel); }
    }
  }

  /** What marking all groups leaves, when it ends. */
  ghost predicate Marked(groups: seq<RouterGroup>, marked: set<int>, result: Option<Result<set<int>, PortError>>) {
    var ranges := GroupRanges(groups);
    if ranges.Failure? then result == Some(Failure(ranges.error))
    else result.Some? && result.value.Success? && Marks(marked, ranges.value, result.value.value)
  }

  lemma {:induction false} MarkGroupsEnds(groups: seq<RouterGroup>, marked: set<int>, fuel: nat)
    requires Halts(groups) && ENOUGH <= fuel
    ensures Marked(groups, marked, MarkGroups(groups, marked, fuel))
    decreases |groups|
  {
    if groups != [] {
      var parsed := Parsed(groups[0].ports);
      if parsed.Success? {
        MarkRangesEnds(parsed.value, marked, fuel);
        var marked' := MarkRanges(parsed.value, marked, fuel).value;
        MarkGroupsEnds(groups[1..], marked', fuel);
        var rest := GroupRanges(groups[1..]);
        if rest.Success? {
          forall q: int
            ensures Taken(parsed.value + rest.value, q) <==> Taken(parsed.value, q) || Taken(rest.value, q)
          {
            TakenConcat(parsed.value, rest.value, q);
          }
        }
      }
    }
  }

  lemma {:induction false} MarkGroupsNeverEnds(groups: seq<RouterGroup>, marked: set<int>, fuel: nat)
    requires !Halts(groups)
    ensures MarkGroups(groups, marked, fuel) == None
    decreases |groups|
  {
    var parsed := Parsed(groups[0].ports);
    if !EndsBelowTop(parsed.value) {
      MarkRangesNeverEnds(parsed.value, marked, fuel);
    } else {
      var first := MarkRanges(parsed.value, marked, fuel);
      if first.Some? { MarkGroupsNeverEnds(groups[1..], first.value, fuel); }
    }
  }

  /** If the search gets through all groups, no range of theirs reaches the last port. */
  lemma {:induction false} TopIsFree(groups: seq<RouterGroup>)
    requires Halts(groups) && GroupRanges(groups).Success?
    ensures EndsBelowTop(GroupRanges(groups).value)
  {
    if groups != [] { TopIsFree(groups[1..]); }
  }

  lemma {:induction false} ScanEnds(i: uint16, end: uint16, marked: set<int>, ranges: seq<Range>, fuel: nat)
    requires i <= end + 1 && end - i + 2 <= fuel && Marks({}, ranges, marked) && MAX_PORT !in marked
    ensures Scan(i, end, marked, fuel) == Some(LeastFree(ranges, i, end))
    decreases fuel
  {
    if i <= end && i in marked {
      ScanEnds(i + 1, end, marked, ranges, fuel - 1);
    }
  }

  lemma SearchEnds(groups: seq<RouterGroup>, range: Range, fuel: nat)
    requires WellFormed(range) && Halts(groups) && ENOUGH <= fuel
    ensures Search(groups, range, fuel) == Some(NextFree(groups, range))
  {
    MarkGroupsEnds(groups, {}, fuel);
    var ranges := GroupRanges(groups);
    if ranges.Success? {
      TopIsFree(groups);
      assert !Taken(ranges.value, MAX_PORT);
      ScanEnds(range.start, range.end, MarkGroups(groups, {}, fuel).value.value, ranges.value, fuel);
    }
  }

  /**
   The search ends exactly when no group it gets to has a range up to port 65535, whatever the
   requested range; and when it ends it gives the least port of that range outside every group
   range, the error of the first unreadable group, or exhaustion exactly when all are taken.
   */
  lemma SearchEndsIff(groups: seq<RouterGroup>, range: Range)
    requires WellFormed(range)
    ensures (exists fuel: nat :: Search(groups, range, fuel).Some?) <==> Halts(groups)
    ensures Halts(groups) ==>
              forall fuel: nat :: ENOUGH <= fuel ==> Search(groups, range, fuel) == Some(NextFree(groups, range))
  {
    if Halts(groups) {
      forall fuel: nat | ENOUGH <= fuel ensures Search(groups, range, fuel) == Some(NextFree(groups, range)) {
        SearchEnds(groups, range, fuel);
      }
      assert Search(groups, range, ENOUGH).Some?;
    } else {
      forall fuel: nat ensures Search(groups, range, fuel).None? {
        MarkGroupsNeverEnds(groups, {}, fuel);
      }
    }
  }

  // ---------------------------------------------------------------- the program

  /** The search as the client runs it; `None` if one of its loops is still running after `fuel` tests of its guard. */
  method GetNextAvailablePort(groups: seq<RouterGroup>, range: Range, fuel: nat)
    returns (r: Option<Result<int, SearchError>>)
    ensures r == Search(groups, range, fuel)
  {
    var marked := MarkPorts(groups, fuel);
    if marked.None? { return None; }
    if marked.value.Failure? { return Some(Failure(BadGroup(marked.value.error))); }
    var free := FirstFree(range, marked.value.value, fuel);
    if free.None? { return None; }
    return Some(if free.value.Some? then Success(free.value.value) else Failure(Exhausted));
  }

  method FirstFree(range: Range, portSet: set<int>, fuel: nat) returns (r: Option<Option<int>>)
    ensures r == Scan(range.start, range.end, portSet, fuel)
  {
    var i: uint16 := range.start;
    var left := fuel;
    while left > 0 && i <= range.end
      invariant Scan(range.start, range.end, portSet, fuel) == Scan(i, range.end, portSet, left)
      decreases left
    {
      if i !in portSet { return Some(Some(i)); }
      i, left := Next16(i), left - 1;
    }
    return if left == 0 then None else Some(None);
  }

  /** The ports of all groups, or the error of the first that does not parse. */
  method MarkPorts(groups: seq<RouterGroup>, fuel: nat) returns (r: Option<Result<set<int>, PortError>>)
    ensures r == MarkGroups(groups, {}, fuel)
  {
    var portSet: set<int> := {};
    assert groups[0..] == groups;
    for i := 0 to |groups|
      invariant MarkGroups(groups, {}, fuel) == MarkGroups(groups[i..], portSet, fuel)
    {
      assert groups[i..][0] == groups[i] && groups[i..][1..] == groups[i + 1..];
      var parsed := Parse(groups[i].ports);
      if parsed.Failure? { return Some(Failure(parsed.error)); }
      var marked := MarkAll(parsed.value, portSet, fuel);
      if marked.None? { return None; }
      portSet := marked.value;
    }
    return Some(Success(portSet));
  }

  method MarkAll(ranges: seq<Range>, portSet: set<int>, fuel: nat) returns (r: Option<set<int>>)
    ensures r == MarkRanges(ranges, portSet, fuel)
  {
    var marked := portSet;
    assert ranges[0..] == ranges;
    for i := 0 to |ranges|
      invariant MarkRanges(ranges, portSet, fuel) == MarkRanges(ranges[i..], marked, fuel)
    {
      assert ranges[i..][0] == ranges[i] && ranges[i..][1..] == ranges[i + 1..];
      var p: uint16 := ranges[i].start;
      var left := fuel;
      ghost var before := marked;
      while left > 0 && p <= ranges[i].end
        invariant Mark(ranges[i].start, ranges[i].end, before, fuel) == Mark(p, ranges[i].end, marked, left)
        decreases left
      {
        marked := marked + {p as int};
        p, left := Next16(p), left - 1;
      }
      if left == 0 { return None; }
    }
    return Some(marked);
  }
}
