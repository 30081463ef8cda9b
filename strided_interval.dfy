/** The interval type of the prediction code (`Config::interval_t`): a
    half-open range `[start, end)` visited every `step` coordinates, with
    the coarsening operations the prediction applies to it.  Its own
    definition is not part of this model; the two halvings below are the
    readings this model assumes (see README). */
module StridedIntervals {

  datatype StridedInterval = StridedInterval(start: int, end: int, step: nat)
  {
    /** `size()`: the extent `end - start`, counted in coordinates. */
    function Size(): int
    {
      end - start
    }

    /** The number of visited coordinates, `size() / step`. */
    function Count(): nat
      requires step > 0 && start <= end
    {
      (end - start) / step
    }

    /** The `k`-th visited coordinate. */
    function Coord(k: int): int
    {
      start + k * step
    }

    /** `i + d` and `i - d`: both bounds translated, step kept. */
    function Shift(d: int): (s: StridedInterval)
      ensures s.Size() == Size() && s.step == step
      ensures forall k :: s.Coord(k) == Coord(k) + d
    {
      StridedInterval(start + d, end + d, step)
    }
  }

  /** `1 << n`. */
  function Pow2(n: nat): (p: nat)
    ensures p >= 1
  {
    if n == 0 then 1 else 2 * Pow2(n - 1)
  }

  /** The interval of the scalar prediction at level `level`: step `2^level`
      and an extent that is a whole number of steps. */
  predicate Strided(i: StridedInterval, level: nat)
  {
    && i.step == Pow2(level)
    && i.start <= i.end
    && (i.end - i.start) % i.step == 0
  }

  /** `i / 2` followed by `ig.step = step >> 1`: both bounds halved by
      flooring division, the step halved. */
  function Halve(i: StridedInterval): (ig: StridedInterval)
    ensures 2 * ig.start <= i.start < 2 * ig.start + 2
    ensures 2 * ig.end <= i.end < 2 * ig.end + 2
    ensures 2 * ig.step <= i.step < 2 * ig.step + 2
  {
    StridedInterval(i.start / 2, i.end / 2, i.step / 2)
  }

  /** `k >> 1` followed by `kg.step = 1`: the parents of the coordinates of
      a unit-step interval, from the parent of its first coordinate to the
      parent of its last one; `>>` on a signed coordinate floors. */
  function ShiftRight(k: StridedInterval): (kg: StridedInterval)
    requires k.step == 1 && k.start <= k.end
    ensures kg.step == 1 && kg.start <= kg.end
    ensures forall q :: 0 <= q < k.Size() ==> 0 <= k.Coord(q) / 2 - kg.start < kg.Size()
    ensures k.start < k.end ==> kg.start == k.start / 2 && kg.end - 1 == (k.end - 1) / 2
  {
    StridedInterval(k.start / 2, (k.end - 1) / 2 + 1, 1)
  }

  lemma MulBound(a: int, p: int)
    requires p > 0
    ensures a >= 1 ==> a * p >= p
    ensures a <= -1 ==> a * p <= -p
  {
  }

  lemma DivExact(n: int, p: int)
    requires p > 0
    ensures (n * p) / p == n && (n * p) % p == 0
  {
    var q, r := (n * p) / p, (n * p) % p;
    assert (n - q) * p == r;
    MulBound(n - q, p);
  }

  lemma HalfShift(a: int, b: int)
    ensures (a + 2 * b) / 2 == a / 2 + b
    ensures (a + 2 * b) % 2 == a % 2
  {
  }

  lemma DoubleStep(k: int, p: int)
    ensures k * (2 * p) == 2 * (k * p)
  {
  }

  lemma ExtentMultiple(n: int, s: int)
    requires s > 0 && n % s == 0
    ensures n == (n / s) * s
  {
  }

  /** With a whole number of steps, a visited coordinate lies before `end`
      exactly while its index is below `Count()`. */
  lemma CoordBelowEnd(i: StridedInterval, k: int)
    requires i.step > 0 && i.start <= i.end && (i.end - i.start) % i.step == 0 && k >= 0
    ensures i.Coord(k) < i.end <==> k < i.Count()
  {
    var n := i.Count();
    ExtentMultiple(i.end - i.start, i.step);
    assert i.Coord(k) - i.end == (k - n) * i.step;
    MulBound(k - n, i.step);
  }

  /** Halving a level-`level` interval (`level > 0`) gives a level
      `level - 1` interval with as many coordinates, the `k`-th of which is
      the parent of the `k`-th coordinate of `i`. */
  lemma HalveStrided(i: StridedInterval, level: nat)
    requires level > 0 && Strided(i, level)
    ensures Strided(Halve(i), level - 1)
    ensures Halve(i).Count() == i.Count()
    ensures forall k :: 0 <= k < i.Count() ==> Halve(i).Coord(k) == i.Coord(k) / 2
  {
    var p := Pow2(level - 1);
    var m := (i.end - i.start) / i.step;
    var mp := m * p;
    assert i.step == 2 * p;
    ExtentMultiple(i.end - i.start, i.step);
    DoubleStep(m, p);
    assert i.end == i.start + 2 * mp;
    HalfShift(i.start, mp);
    var ig := Halve(i);
    assert ig.step == p;
    assert ig.end - ig.start == mp;
    DivExact(m, p);
    forall k | 0 <= k < i.Count()
      ensures ig.Coord(k) == i.Coord(k) / 2
    {
      DoubleStep(k, p);
      HalfShift(i.start, k * p);
    }
  }

  /** Translating keeps an interval of the same level and count. */
  lemma ShiftStrided(i: StridedInterval, level: nat, d: int)
    requires Strided(i, level)
    ensures Strided(i.Shift(d), level)
    ensures i.Shift(d).Count() == i.Count()
  {
    var s := i.Shift(d);
    assert s.end - s.start == i.end - i.start;
  }
}
