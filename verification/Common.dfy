/** Failure-carrying datatypes and small facts about listings, shared by every module. */
module Common {

  datatype Option<+T> = None | Some(value: T)

  datatype Result<+T, +E> = Success(value: T) | Failure(error: E)

  /** The machine integers the program relies on. */
  type uint16 = x: int | 0 <= x < 0x1_0000
  type uint32 = x: int | 0 <= x < 0x1_0000_0000

  /** Times are counted in nanoseconds. */
  const SECOND := 1_000_000_000

  /** `order` lists the elements of `s`, each exactly once. */
  ghost predicate Lists<T>(order: seq<T>, s: set<T>) {
    && (forall i :: 0 <= i < |order| ==> order[i] in s)
    && (forall x :: x in s ==> x in order)
    && (forall i, j :: 0 <= i < j < |order| ==> order[i] != order[j])
  }

  lemma {:induction false} ListingSize<T>(order: seq<T>, s: set<T>)
    requires Lists(order, s)
    ensures |order| == |s|
  {
    if order == [] {
      assert s == {};
    } else {
      var x, rest := order[0], order[1..];
      forall y | y in s - {x} ensures y in rest {
        assert y in order;
      }
      ListingSize(rest, s - {x});
    }
  }
}
