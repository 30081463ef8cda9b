/** The atomic entity of the mesh: `mure::Interval`, a half-open range
    `[start, end)` of signed coordinates together with the offset `index`
    in the value buffer where the data of the range begin.  Coordinates
    are unbounded integers here; the storage index is a `std::size_t`,
    hence a `nat`. */
module Intervals {

  datatype Interval = Interval(start: int, end: int, index: nat)
  {
    /** `contains(x)`: half-open membership.  An interval that is not
        valid contains no coordinate at all. */
    predicate Contains(x: int)
      ensures Contains(x) ==> IsValid()
    {
      start <= x < end
    }

    /** `size()`: the length `end - start`, which is zero or negative
        exactly for the intervals that are not valid. */
    function Size(): (n: int)
      ensures n > 0 <==> IsValid()
      ensures n <= 0 <==> !Contains(start)
    {
      end - start
    }

    /** `is_valid()`: the interval is non-empty, that is, its last
        coordinate `end - 1` is not before its start. */
    predicate IsValid()
      ensures IsValid() <==> start <= end - 1
    {
      start < end
    }
  }

  /** `Interval() = default`: the interval `[0, 0)` stored at index 0. */
  function Default(): (iv: Interval)
    ensures !iv.IsValid() && iv.Size() == 0
    ensures forall x :: !iv.Contains(x)
  {
    Interval(0, 0, 0)
  }

  /** `Interval(start, end, index = 0)`: stores its arguments unchanged. */
  function Make(start: int, end: int, index: nat := 0): (iv: Interval)
    ensures iv.start == start && iv.end == end && iv.index == index
    ensures iv.IsValid() <==> start < end
  {
    Interval(start, end, index)
  }

  /** The coordinates an interval contains, as a set. */
  function Coordinates(iv: Interval): set<int>
  {
    set x | iv.start <= x < iv.end && iv.Contains(x)
  }

  /** The end coordinate never belongs to an interval; the start belongs
      to it exactly when it is valid, that is when its size is positive. */
  lemma BoundaryMembership(iv: Interval)
    ensures !iv.Contains(iv.end)
    ensures iv.Contains(iv.start) <==> iv.IsValid()
    ensures iv.IsValid() <==> iv.Size() > 0
  {
  }

  /** A valid interval contains exactly `size()` coordinates; an interval
      that is not valid contains none. */
  lemma {:induction false} ContainedCount(iv: Interval)
    ensures |Coordinates(iv)| == if iv.IsValid() then iv.Size() else 0
    decreases iv.Size()
  {
    if iv.IsValid() {
      var shorter := Interval(iv.start, iv.end - 1, iv.index);
      ContainedCount(shorter);
      assert Coordinates(iv) == Coordinates(shorter) + {iv.end - 1};
      assert iv.end - 1 !in Coordinates(shorter);
    } else {
      assert Coordinates(iv) == {};
    }
  }
}
