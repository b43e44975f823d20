/** What a reservation asks for, letter by letter (client.go). */
module RangeRequests {
  import opened Common
  import opened PortRanges
  import opened PortReservation

  /** The text is one range of more than one port. */
  ghost predicate AsksFor(text: string, r: Range) {
    ',' !in text && WellFormed(r) && r.start < r.end && Denotes(text, r)
  }

  ghost predicate Asks(text: string) {
    exists r :: AsksFor(text, r)
  }

  /** A text without a comma that denotes a range is read as that range alone. */
  lemma {:induction false} OneRange(text: string, r: Range)
    ensures Parsed(text) == Success([r]) <==> ',' !in text && WellFormed(r) && Denotes(text, r)
  {
    ParsedIff(text, [r]);
    if parts :| Listing(text, parts, [r]) { assert parts == [parts[0]]; }
    if ',' !in text && WellFormed(r) && Denotes(text, r) { assert Listing(text, [text], [r]); }
  }

  /** A request is for the range that its text denotes. */
  lemma {:induction false} RequestedIff(text: string, r: Range)
    ensures Requested(text) == Success(r) <==> AsksFor(text, r)
  {
    OneRange(text, r);
    var ranges := Parsed(text);
    if ranges.Success? && |ranges.value| == 1 { assert ranges.value == [ranges.value[0]]; }
  }

  lemma {:induction false} AsksIff(text: string)
    ensures Requested(text).Success? <==> Asks(text)
    ensures Requested(text).Success? ==> AsksFor(text, Requested(text).value)
  {
    if Requested(text).Success? { RequestedIff(text, Requested(text).value); }
    if r :| AsksFor(text, r) { RequestedIff(text, r); }
  }

  /** A single port, several ranges, and a text that lists none are each refused with an answer of their own. */
  lemma {:induction false} RefusedIff(text: string)
    ensures Requested(text) == Failure(SinglePort) <==>
            exists r :: ',' !in text && WellFormed(r) && r.start == r.end && Denotes(text, r)
    ensures Requested(text) == Failure(MultipleRanges) <==>
            exists parts, ranges :: Listing(text, parts, ranges) && |ranges| > 1
    ensures (Requested(text).Failure? && Requested(text).error.BadRequest?) <==>
            forall parts, ranges :: !Listing(text, parts, ranges)
  {
    var parsed := Parsed(text);
    forall parts, ranges | Listing(text, parts, ranges) ensures parsed == Success(ranges) {
      ListingParses(text, parts, ranges);
    }
    forall r | ',' !in text && WellFormed(r) && Denotes(text, r) ensures parsed == Success([r]) {
      OneRange(text, r);
    }
    if parsed.Success? {
      ParsedIff(text, parsed.value);
      if |parsed.value| == 1 {
        assert parsed.value == [parsed.value[0]];
        OneRange(text, parsed.value[0]);
      }
    }
  }
}
