/** Modification tags: the version stamp carried by every route (models/route.go). */
module ModificationTags {
  import opened Common

  /** The number of values of the 32-bit index. */
  const INDEX_LIMIT := 0x1_0000_0000

  datatype ModificationTag = ModificationTag(guid: string, index: uint32) {

    /** One state change; the index wraps like the 32-bit counter it models. */
    function Increment(): (r: ModificationTag) {
      this.(index := (index + 1) % INDEX_LIMIT)
    }
  }

  /** A router's decision to apply an upsert; `None` is the nil tag of a route it does not hold. */
  predicate SucceededBy(m: Option<ModificationTag>, other: ModificationTag) {
    if m.None? || m.value.guid == "" || other.guid == "" then true
    else m.value.guid != other.guid || m.value.index < other.index
  }

  /** A tag never succeeds itself, of two tags of one guid at most one succeeds the other, and it is the later one. */
  lemma Succession(m: ModificationTag, other: ModificationTag)
    requires m.guid != "" && other.guid != ""
    ensures !SucceededBy(Some(m), m)
    ensures m.guid == other.guid && m != other ==> (SucceededBy(Some(m), other) <==> !SucceededBy(Some(other), m))
    ensures SucceededBy(Some(m), m.Increment()) <==> m.index != 0xFFFF_FFFF
    ensures m.guid != other.guid ==> SucceededBy(Some(m), other)
  {
  }

  /** Nothing held, or a tag without a guid on either side, lets every upsert through. */
  lemma Untagged(m: ModificationTag, other: ModificationTag)
    ensures SucceededBy(None, other)
    ensures m.guid == "" || other.guid == "" ==> SucceededBy(Some(m), other)
  {
  }
}
