/**
 Closed key ranges and the two comparisons the range map is searched with.

 Keys are byte addresses.  Two ranges are ordered only when both bounds are
 strictly ordered the same way, so the order is partial: a range neither
 precedes nor follows one that it covers or is covered by.
 */
module Ranges {

  datatype Range = Range(min: int, max: int) {

    predicate Contains(key: int) {
      min <= key <= max
    }

    predicate Covers(other: Range) {
      min <= other.min && other.max <= max
    }

    predicate Precedes(other: Range) {
      min < other.min && max < other.max
    }

    /** Where `key` lies: before the range, inside it, or after it. */
    function CompareToKey(key: int): (r: int)
      ensures r == 0 <==> Contains(key)
      ensures r < 0 ==> !Contains(key) && forall later: Range :: Precedes(later) ==> !later.Contains(key)
      ensures r > 0 ==> !Contains(key) && forall earlier: Range :: earlier.Precedes(this) ==> !earlier.Contains(key)
    {
      if key < min then -1 else if max < key then 1 else 0
    }

    /** The sign of the order between two ranges; 0 exactly when one covers the other. */
    function CompareTo(other: Range): (r: int)
      ensures r == 0 <==> Covers(other) || other.Covers(this)
      ensures r > 0 <==> other.Precedes(this)
      ensures r < 0 <==> this.Precedes(other)
    {
      if other.min < min && other.max < max then 1
      else if max < other.max && min < other.min then -1
      else 0
    }
  }
}
