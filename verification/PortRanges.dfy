/** Lists of port ranges: how they are written, read, joined and checked (models/router_groups.go). */
module PortRanges {
  import opened Common

  const MIN_PORT := 1024
  const MAX_PORT := 65535

  /** Both ends inclusive. */
  datatype Range = Range(start: uint16, end: uint16)

  datatype PortError =
    | InvalidPort | NoStartingPort(text: string) | NoEndingPort(text: string) | NotAscending(text: string)
    | TooManyDashes(text: string)

  /** A range the parser can produce. */
  predicate WellFormed(r: Range) {
    MIN_PORT <= r.start <= r.end
  }

  predicate Covers(r: Range, port: int) {
    r.start <= port <= r.end
  }

  // ---------------------------------------------------------------- strings

  /** The pieces of `s` between occurrences of `c`. */
  function Split(s: string, c: char): (r: seq<string>)
    ensures r != []
  {
    if s == "" then [""]
    else
      var rest := Split(s[1..], c);
      if s[0] == c then [""] + rest else [[s[0]] + rest[0]] + rest[1..]
  }

  function Join(parts: seq<string>, c: char): string {
    if parts == [] then ""
    else if |parts| == 1 then parts[0]
    else parts[0] + [c] + Join(parts[1..], c)
  }

  predicate IsDigit(c: char) { '0' <= c <= '9' }

  predicate AllDigits(s: string) {
    forall i :: 0 <= i < |s| ==> IsDigit(s[i])
  }

  function DigitValue(s: string): nat
    requires AllDigits(s)
  {
    if s == "" then 0
    else DigitValue(s[..|s| - 1]) * 10 + (s[|s| - 1] as int - '0' as int)
  }

  /** Decimal, unsigned, 16 bits: digits only, and at least one. */
  function ParseUint16(s: string): Option<uint16> {
    if s == "" || !AllDigits(s) || DigitValue(s) > MAX_PORT then None else Some(DigitValue(s))
  }

  function Digits(n: nat): (s: string)
    ensures s != "" && AllDigits(s)
  {
    if n < 10 then [('0' as int + n) as char] else Digits(n / 10) + [('0' as int + n % 10) as char]
  }

  function Itoa(n: int): string {
    if n < 0 then "-" + Digits(-n) else Digits(n)
  }

  // ---------------------------------------------------------------- parsing

  function NewRange(start: uint16, end: uint16): (r: Result<Range, PortError>) {
    if start >= MIN_PORT && end >= MIN_PORT then Success(Range(start, end)) else Failure(InvalidPort)
  }

  function ParseRange(s: string): (r: Result<Range, PortError>)
    ensures r.Success? ==> WellFormed(r.value)
  {
    var ends := Split(s, '-');
    if |ends| == 1 then
      var n := ParseUint16(ends[0]);
      if n.None? then Failure(InvalidPort) else NewRange(n.value, n.value)
    else if |ends| == 2 then
      var start, end := ParseUint16(ends[0]), ParseUint16(ends[1]);
      if start.None? then Failure(NoStartingPort(s))
      else if end.None? then Failure(NoEndingPort(s))
      else if start.value > end.value then Failure(NotAscending(s))
      else NewRange(start.value, end.value)
    else Failure(TooManyDashes(s))
  }

  /** The pieces read in order, up to the first bad one. */
  function ParseAll(parts: seq<string>): (r: Result<seq<Range>, PortError>)
    ensures r.Success? <==> forall i :: 0 <= i < |parts| ==> ParseRange(parts[i]).Success?
    ensures r.Success? ==> |r.value| == |parts|
    ensures r.Success? ==> forall i :: 0 <= i < |parts| ==> ParseRange(parts[i]) == Success(r.value[i])
  {
    if parts == [] then Success([])
    else
      var first := ParseRange(parts[0]);
      if first.Failure? then Failure(first.error)
      else
        var rest := ParseAll(parts[1..]);
        if rest.Failure? then rest else Success([first.value] + rest.value)
  }

  function Parsed(ports: string): (r: Result<seq<Range>, PortError>)
    ensures r.Success? ==> r.value != [] && forall i :: 0 <= i < |r.value| ==> WellFormed(r.value[i])
  {
    ParseAll(Split(ports, ','))
  }

  lemma {:induction false} FirstFailure(parts: seq<string>, i: nat)
    requires i < |parts| && ParseRange(parts[i]).Failure?
    requires forall j :: 0 <= j < i ==> ParseRange(parts[j]).Success?
    ensures ParseAll(parts) == Failure(ParseRange(parts[i]).error)
  {
    if i > 0 { FirstFailure(parts[1..], i - 1); }
  }

  method Parse(ports: string) returns (r: Result<seq<Range>, PortError>)
    ensures r == Parsed(ports)
  {
    var parts := Split(ports, ',');
    var ranges: seq<Range> := [];
    for i := 0 to |parts|
      invariant |ranges| == i && forall j :: 0 <= j < i ==> ParseRange(parts[j]) == Success(ranges[j])
    {
      var range := ParseRange(parts[i]);
      if range.Failure? {
        FirstFailure(parts, i);
        return Failure(range.error);
      }
      ranges := ranges + [range.value];
    }
    assert ParseAll(parts).Success? && ParseAll(parts).value == ranges;
    return Success(ranges);
  }

  // ---------------------------------------------------------------- writing and reading back

  lemma {:induction false} SplitConcat(a: string, b: string, c: char)
    requires c !in a
    ensures Split(a + [c] + b, c) == [a] + Split(b, c)
    decreases |a|
  {
    var s := a + [c] + b;
    if a == "" {
      assert s == [c] + b;
      assert s[1..] == b;
    } else {
      assert s[1..] == a[1..] + [c] + b;
      assert a[0] != c;
      SplitConcat(a[1..], b, c);
      assert [a[0]] + a[1..] == a;
    }
  }

  lemma {:induction false} SplitWhole(a: string, c: char)
    requires c !in a
    ensures Split(a, c) == [a]
  {
    if a != "" {
      assert a[0] != c;
      SplitWhole(a[1..], c);
      assert [a[0]] + a[1..] == a;
    }
  }

  /** Joining and splitting are inverse on pieces that do not contain the separator. */
  lemma {:induction false} SplitJoin(parts: seq<string>, c: char)
    requires parts != [] && forall i :: 0 <= i < |parts| ==> c !in parts[i]
    ensures Split(Join(parts, c), c) == parts
  {
    if |parts| == 1 {
      SplitWhole(parts[0], c);
    } else {
      SplitConcat(parts[0], Join(parts[1..], c), c);
      SplitJoin(parts[1..], c);
    }
  }

  /** Splitting loses nothing. */
  lemma {:induction false} JoinSplit(s: string, c: char)
    ensures Join(Split(s, c), c) == s
  {
    if s != "" {
      JoinSplit(s[1..], c);
      var rest := Split(s[1..], c);
      if s[0] == c {
        assert ([""] + rest)[1..] == rest;
      } else {
        assert ([[s[0]] + rest[0]] + rest[1..])[1..] == rest[1..];
      }
    }
  }

  /** The text is digits only, at least one, and their value is `n`. */
  predicate Numeral(s: string, n: int) {
    s != "" && AllDigits(s) && DigitValue(s) == n
  }

  predicate Dashed(s: string, a: string, b: string, r: Range) {
    s == a + ['-'] + b && Numeral(a, r.start) && Numeral(b, r.end)
  }

  /** One number for both ends, or one for each with a dash between. */
  ghost predicate Denotes(s: string, r: Range) {
    (r.start == r.end && Numeral(s, r.start)) || exists a, b :: Dashed(s, a, b, r)
  }

  lemma DigitsWithoutDash(s: string)
    requires AllDigits(s)
    ensures '-' !in s
  {
  }

  lemma DenotedParses(s: string, r: Range)
    requires WellFormed(r) && Denotes(s, r)
    ensures ParseRange(s) == Success(r)
  {
    if r.start == r.end && Numeral(s, r.start) {
      DigitsWithoutDash(s);
      SplitWhole(s, '-');
    } else {
      var a, b :| Dashed(s, a, b, r);
      DigitsWithoutDash(a);
      DigitsWithoutDash(b);
      SplitConcat(a, b, '-');
      SplitWhole(b, '-');
    }
  }

  /**
   Parsing succeeds with a range exactly on the texts that denote it, digit by digit, and only if it is well
   formed.
   */
  lemma ParseRangeIff(s: string, r: Range)
    ensures ParseRange(s) == Success(r) <==> WellFormed(r) && Denotes(s, r)
  {
    if WellFormed(r) && Denotes(s, r) {
      DenotedParses(s, r);
    }
    if ParseRange(s) == Success(r) {
      JoinSplit(s, '-');
      var ends := Split(s, '-');
      if |ends| == 2 {
        assert ends[1..] == [ends[1]];
        assert Dashed(s, ends[0], ends[1], r);
      }
    }
  }

  /** A text without a dash is a port, or an invalid one. */
  lemma PortText(s: string)
    requires '-' !in s
    ensures forall n: uint16 :: Numeral(s, n) ==>
              ParseRange(s) == if n < 1024 then Failure(InvalidPort) else Success(Range(n, n))
    ensures (forall n: uint16 :: !Numeral(s, n)) ==> ParseRange(s) == Failure(InvalidPort)
  {
    SplitWhole(s, '-');
    if s != "" && AllDigits(s) && DigitValue(s) <= MAX_PORT { assert Numeral(s, DigitValue(s)); }
  }

  /** A text with one dash is judged by its start, by its end, by their order and then by the least port. */
  lemma DashText(a: string, b: string)
    requires '-' !in a && '-' !in b
    ensures var s := a + ['-'] + b;
            && ((forall n: uint16 :: !Numeral(a, n)) ==> ParseRange(s) == Failure(NoStartingPort(s)))
            && (forall n: uint16 :: Numeral(a, n) && (forall m: uint16 :: !Numeral(b, m)) ==>
                  ParseRange(s) == Failure(NoEndingPort(s)))
            && (forall n: uint16, m: uint16 :: Numeral(a, n) && Numeral(b, m) ==>
                  ParseRange(s) == if n > m then Failure(NotAscending(s))
                                   else if n < 1024 then Failure(InvalidPort) else Success(Range(n, m)))
  {
    SplitConcat(a, b, '-');
    SplitWhole(b, '-');
    if a != "" && AllDigits(a) && DigitValue(a) <= MAX_PORT { assert Numeral(a, DigitValue(a)); }
    if b != "" && AllDigits(b) && DigitValue(b) <= MAX_PORT { assert Numeral(b, DigitValue(b)); }
  }

  /** A text with two dashes or more is nothing. */
  lemma DashesText(a: string, b: string, c: string)
    requires '-' !in a && '-' !in b
    ensures var s := a + ['-'] + b + ['-'] + c; ParseRange(s) == Failure(TooManyDashes(s))
  {
    assert a + ['-'] + b + ['-'] + c == a + ['-'] + (b + ['-'] + c);
    SplitConcat(a, b + ['-'] + c, '-');
    SplitConcat(b, c, '-');
  }

  lemma {:induction false} SplitClean(s: string, c: char)
    ensures forall i :: 0 <= i < |Split(s, c)| ==> c !in Split(s, c)[i]
  {
    if s != "" { SplitClean(s[1..], c); }
  }

  /** The text is one or more pieces with commas between, and each piece denotes its range. */
  ghost predicate Listing(text: string, parts: seq<string>, ranges: seq<Range>) {
    && parts != [] && |parts| == |ranges| && text == Join(parts, ',')
    && forall i :: 0 <= i < |parts| ==> ',' !in parts[i] && WellFormed(ranges[i]) && Denotes(parts[i], ranges[i])
  }

  /** A list is read exactly as it is written. */
  lemma ParsedIff(text: string, ranges: seq<Range>)
    ensures Parsed(text) == Success(ranges) <==> exists parts :: Listing(text, parts, ranges)
  {
    if Parsed(text) == Success(ranges) {
      var parts := Split(text, ',');
      SplitClean(text, ',');
      JoinSplit(text, ',');
      forall i | 0 <= i < |parts| ensures WellFormed(ranges[i]) && Denotes(parts[i], ranges[i]) {
        ParseRangeIff(parts[i], ranges[i]);
      }
      assert Listing(text, parts, ranges);
    }
    if parts :| Listing(text, parts, ranges) { ListingParses(text, parts, ranges); }
  }

  lemma ListingParses(text: string, parts: seq<string>, ranges: seq<Range>)
    requires Listing(text, parts, ranges)
    ensures Parsed(text) == Success(ranges)
  {
    SplitJoin(parts, ',');
    forall i | 0 <= i < |parts| ensures ParseRange(parts[i]) == Success(ranges[i]) {
      DenotedParses(parts[i], ranges[i]);
    }
    assert ParseAll(parts).Success? && ParseAll(parts).value == ranges;
  }

  lemma {:induction false} DigitsValue(n: nat)
    ensures DigitValue(Digits(n)) == n
  {
    if n >= 10 {
      DigitsValue(n / 10);
      var s := Digits(n);
      assert s[..|s| - 1] == Digits(n / 10);
    }
  }

  lemma DigitsClean(n: nat)
    ensures ',' !in Digits(n) && '-' !in Digits(n)
  {
  }

  /** An integer as YAML gives it, written and parsed back, is a range exactly when it is a usable port. */
  lemma ItoaParses(n: int)
    ensures ',' !in Itoa(n)
    ensures ParseRange(Itoa(n)).Success? <==> MIN_PORT <= n <= MAX_PORT
    ensures MIN_PORT <= n <= MAX_PORT ==> ParseRange(Itoa(n)) == Success(Range(n, n))
  {
    if n >= 0 {
      DigitsClean(n);
      SplitWhole(Digits(n), '-');
      DigitsValue(n);
    } else {
      DigitsClean(-n);
      SplitConcat("", Digits(-n), '-');
      assert "" + ['-'] + Digits(-n) == Itoa(n);
      SplitWhole(Digits(-n), '-');
      assert Split(Itoa(n), '-') == ["", Digits(-n)];
    }
  }

  function Itoas(ns: seq<int>): (r: seq<string>)
    ensures |r| == |ns| && forall i :: 0 <= i < |r| ==> r[i] == Itoa(ns[i])
  {
    seq(|ns|, i requires 0 <= i < |ns| => Itoa(ns[i]))
  }

  /** The comma-joined text of a YAML integer list. */
  method UnmarshalList(ns: seq<int>) returns (ports: string)
    ensures ports == Join(Itoas(ns), ',')
  {
    var s: seq<string> := [];
    for i := 0 to |ns|
      invariant s == Itoas(ns[..i])
    {
      s := s + [Itoa(ns[i])];
    }
    assert ns[..|ns|] == ns;
    ports := Join(s, ',');
  }

  /** It parses exactly when the list is non-empty and all ports are usable, and then gives them back in order. */
  lemma YamlListParses(ns: seq<int>)
    ensures Parsed(Join(Itoas(ns), ',')).Success? <==>
            ns != [] && forall i :: 0 <= i < |ns| ==> MIN_PORT <= ns[i] <= MAX_PORT
    ensures Parsed(Join(Itoas(ns), ',')).Success? ==>
              Parsed(Join(Itoas(ns), ',')).value == seq(|ns|, i requires 0 <= i < |ns| => Range(ns[i], ns[i]))
  {
    forall i | 0 <= i < |ns|
      ensures ',' !in Itoa(ns[i])
      ensures ParseRange(Itoa(ns[i])).Success? <==> MIN_PORT <= ns[i] <= MAX_PORT
      ensures MIN_PORT <= ns[i] <= MAX_PORT ==> ParseRange(Itoa(ns[i])) == Success(Range(ns[i], ns[i]))
    {
      ItoaParses(ns[i]);
    }
    if ns == [] {
      assert Parsed("") == ParseAll([""]);
      assert !ParseRange("").Success?;
      assert [""][0] == "";
    } else {
      SplitJoin(Itoas(ns), ',');
    }
  }

  /** A range written with its two ends, or one if they are equal. */
  function Written(r: Range): string {
    if r.start == r.end then Itoa(r.start) else Itoa(r.start) + "-" + Itoa(r.end)
  }

  lemma WrittenParses(r: Range)
    requires WellFormed(r)
    ensures ',' !in Written(r) && ParseRange(Written(r)) == Success(r)
  {
    DigitsClean(r.start);
    DigitsClean(r.end);
    DigitsValue(r.start);
    DigitsValue(r.end);
    if r.start != r.end { assert Dashed(Written(r), Digits(r.start), Digits(r.end), r); }
    DenotedParses(Written(r), r);
  }

  /** Any list of ranges the parser can produce, written out, is read back as it was. */
  lemma RangesRoundTrip(ranges: seq<Range>)
    requires ranges != [] && forall i :: 0 <= i < |ranges| ==> WellFormed(ranges[i])
    ensures Parsed(Join(seq(|ranges|, i requires 0 <= i < |ranges| => Written(ranges[i])), ',')) == Success(ranges)
  {
    var texts := seq(|ranges|, i requires 0 <= i < |ranges| => Written(ranges[i]));
    forall i | 0 <= i < |texts| ensures ',' !in texts[i] && ParseRange(texts[i]) == Success(ranges[i]) {
      WrittenParses(ranges[i]);
    }
    SplitJoin(texts, ',');
    assert ParseAll(texts).Success?;
    assert ParseAll(texts).value == ranges;
  }

  // ---------------------------------------------------------------- overlap

  /** 16-bit subtraction wraps. */
  function Sub16(a: uint16, b: uint16): uint16 { (a - b) % 0x1_0000 }

  function Max(r: Range, o: Range): uint16 { if r.end > o.end then r.end else o.end }
  function Min(r: Range, o: Range): uint16 { if r.start < o.start then r.start else o.start }

  /** The test: the span of both is no longer than their lengths together. */
  predicate Overlaps(r: Range, o: Range) {
    Sub16(Max(r, o), Min(r, o)) <= Sub16(r.end, r.start) + Sub16(o.end, o.start)
  }

  /** The same test as an earlier version of the program had it, with the sum kept to 16 bits. */
  predicate OverlapsV6(r: Range, o: Range) {
    Sub16(Max(r, o), Min(r, o)) <= (Sub16(r.end, r.start) + Sub16(o.end, o.start)) % 0x1_0000
  }

  ghost predicate ShareAPort(r: Range, o: Range) {
    exists p :: Covers(r, p) && Covers(o, p)
  }

  lemma NoWrap(a: uint16, b: uint16)
    requires b <= a
    ensures Sub16(a, b) == a - b
  {
  }

  /** The arithmetic test is exact on every pair of ranges the parser can produce. */
  lemma OverlapsIffShared(r: Range, o: Range)
    requires WellFormed(r) && WellFormed(o)
    ensures Overlaps(r, o) <==> ShareAPort(r, o)
  {
    NoWrap(r.end, r.start);
    NoWrap(o.end, o.start);
    NoWrap(Max(r, o), Min(r, o));
    var p := if r.start > o.start then r.start else o.start;
    if Overlaps(r, o) {
      assert Covers(r, p) && Covers(o, p);
    }
  }

  /** The 16-bit sum agrees with it exactly as long as the two lengths sum below 2^16. */
  lemma OverlapsV6Iff(r: Range, o: Range)
    requires WellFormed(r) && WellFormed(o)
    ensures (OverlapsV6(r, o) <==> Overlaps(r, o)) <==> (r.end - r.start) + (o.end - o.start) < 0x1_0000
  {
    var sum := (r.end - r.start) + (o.end - o.start);
    NoWrap(r.end, r.start);
    NoWrap(o.end, o.start);
    NoWrap(Max(r, o), Min(r, o));
    assert sum % 0x1_0000 == if sum >= 0x1_0000 then sum - 0x1_0000 else sum;
  }

  // ---------------------------------------------------------------- validity

  datatype ValidityError =
    | BadPorts(error: PortError)
    | Overlapping(a: Range, b: Range)
    | ReservedPorts

  /** Every port lies in at most one range. */
  ghost predicate Disjoint(ranges: seq<Range>) {
    forall i, j, p :: 0 <= i < |ranges| && 0 <= j < |ranges| && i != j && Covers(ranges[i], p) ==> !Covers(ranges[j], p)
  }

  ghost predicate TouchesReserved(ranges: seq<Range>, reserved: seq<uint16>) {
    exists i, k :: 0 <= i < |ranges| && 0 <= k < |reserved| && Covers(ranges[i], reserved[k])
  }

  /**
   Validation succeeds exactly when the text parses, the ranges are disjoint and, if conflicts are fatal, no
   reserved port is covered.
   */
  method Validate(ports: string, failOnConflicts: bool, reserved: seq<uint16>) returns (err: Option<ValidityError>)
    ensures err.None? <==>
            Parsed(ports).Success? && Disjoint(Parsed(ports).value)
            && (failOnConflicts ==> !TouchesReserved(Parsed(ports).value, reserved))
    ensures Parsed(ports).Failure? ==> err == Some(BadPorts(Parsed(ports).error))
    ensures err.Some? && err.value.Overlapping? ==>
              Parsed(ports).Success? && !Disjoint(Parsed(ports).value) && ShareAPort(err.value.a, err.value.b)
              && err.value.a in Parsed(ports).value && err.value.b in Parsed(ports).value
    ensures err == Some(ReservedPorts) <==>
            Parsed(ports).Success? && Disjoint(Parsed(ports).value)
            && failOnConflicts && TouchesReserved(Parsed(ports).value, reserved)
  {
    var parsed := Parse(ports);
    if parsed.Failure? { return Some(BadPorts(parsed.error)); }
    var ranges := parsed.value;

    for i := 0 to |ranges|
      invariant forall k, j :: 0 <= k < i && 0 <= j < |ranges| && k != j ==> !ShareAPort(ranges[k], ranges[j])
    {
      for j := 0 to |ranges|
        invariant forall l :: 0 <= l < j && i != l ==> !ShareAPort(ranges[i], ranges[l])
      {
        if i == j { continue; }
        OverlapsIffShared(ranges[i], ranges[j]);
        if Overlaps(ranges[i], ranges[j]) {
          var p :| Covers(ranges[i], p) && Covers(ranges[j], p);
          return Some(Overlapping(ranges[i], ranges[j]));
        }
      }
    }
    assert Disjoint(ranges);

    if failOnConflicts {
      for i := 0 to |ranges|
        invariant forall k, l :: 0 <= k < i && 0 <= l < |reserved| ==> !Covers(ranges[k], reserved[l])
      {
        for k := 0 to |reserved|
          invariant forall l :: 0 <= l < k ==> !Covers(ranges[i], reserved[l])
        {
          if reserved[k] >= ranges[i].start && reserved[k] <= ranges[i].end {
            assert Covers(ranges[i], reserved[k]);
            return Some(ReservedPorts);
          }
        }
      }
    }
    return None;
  }

  function Size(r: Range): int { r.end - r.start + 1 }

  function TotalSize(ranges: seq<Range>): int {
    if ranges == [] then 0 else Size(ranges[0]) + TotalSize(ranges[1..])
  }

  ghost function Ports(r: Range): set<int> {
    set p | r.start <= p <= r.end && Covers(r, p)
  }

  ghost function CoveredPorts(ranges: seq<Range>): set<int> {
    if ranges == [] then {} else Ports(ranges[0]) + CoveredPorts(ranges[1..])
  }

  lemma {:induction false} PortsCount(r: Range)
    requires r.start <= r.end
    ensures |Ports(r)| == Size(r)
    decreases r.end
  {
    if r.start == r.end {
      assert Ports(r) == {r.start};
    } else {
      var shorter := Range(r.start, r.end - 1);
      PortsCount(shorter);
      assert Ports(r) == Ports(shorter) + {r.end};
    }
  }

  lemma {:induction false} CoveredIff(ranges: seq<Range>, p: int)
    ensures p in CoveredPorts(ranges) <==> exists i :: 0 <= i < |ranges| && Covers(ranges[i], p)
  {
    if ranges != [] {
      CoveredIff(ranges[1..], p);
      if i :| 0 <= i < |ranges| && Covers(ranges[i], p) {
        if i > 0 { assert Covers(ranges[1..][i - 1], p); }
      }
      if i :| 0 <= i < |ranges[1..]| && Covers(ranges[1..][i], p) {
        assert Covers(ranges[i + 1], p);
      }
    }
  }

  /** Disjoint ranges hold as many distinct ports as their sizes add up to. */
  lemma {:induction false} DisjointSize(ranges: seq<Range>)
    requires Disjoint(ranges) && forall i :: 0 <= i < |ranges| ==> WellFormed(ranges[i])
    ensures |CoveredPorts(ranges)| == TotalSize(ranges)
  {
    if ranges != [] {
      var first, rest := ranges[0], ranges[1..];
      PortsCount(first);
      assert Disjoint(rest);
      DisjointSize(rest);
      forall p | p in Ports(first) ensures p !in CoveredPorts(rest) {
        CoveredIff(rest, p);
        assert Covers(ranges[0], p);
      }
    }
  }
}
