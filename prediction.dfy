/** The memoised scalar prediction `prediction(f, level_g, level, i, item,
    mem_map)`, which is the same in the Burgers and the shallow-water
    demos: the values of component `item` at level `level_g + level` on a
    strided interval `i` of step `2^level`, rebuilt from coarser levels
    where cells are missing. */
module ScalarPrediction {
  import opened StridedIntervals
  import opened Memo
  import opened Multiresolution

  /** The stored values `f(item, lvl, i)` at the coordinates of `i`. */
  function Stored(fld: Field, item: nat, lvl: nat, i: StridedInterval): (r: seq<real>)
    requires i.step > 0 && i.start <= i.end
    ensures |r| == i.Count()
    ensures forall k :: 0 <= k < |r| ==> r[k] == fld(item, lvl, i.Coord(k))
  {
    seq(i.Count(), k requires 0 <= k < i.Count() => fld(item, lvl, i.Coord(k)))
  }

  /** `xt::all(mesh.exists(lvl, i))`: every visited cell exists. */
  predicate AllExist(ex: Existence, lvl: nat, i: StridedInterval)
    requires i.step > 0 && i.start <= i.end
  {
    forall k :: 0 <= k < i.Count() ==> ex(lvl, i.Coord(k))
  }

  /** Position by position: the stored value where the cell exists, and
      otherwise the stencil `parent - 1/8 * sign * (right - left)` with the
      sign of the coordinate's parity. */
  function Combine(ex: Existence, fld: Field, item: nat, lvl: nat, i: StridedInterval,
                   parent: seq<real>, right: seq<real>, left: seq<real>): (r: seq<real>)
    requires i.step > 0 && i.start <= i.end
    requires |parent| == |right| == |left| == i.Count()
    ensures |r| == i.Count()
  {
    seq(i.Count(), k requires 0 <= k < i.Count() =>
      if ex(lvl, i.Coord(k)) then fld(item, lvl, i.Coord(k))
      else Interpolate(parent[k], ParitySign(i.Coord(k)), right[k], left[k]))
  }

  /** The value `prediction` computes: at each visited coordinate of `i`,
      the prediction of that cell.  The result has one value per visited
      coordinate, `i.size() / i.step`. */
  function Predict(ex: Existence, fld: Field, item: nat, levelG: nat, level: nat, i: StridedInterval): (r: seq<real>)
    requires Grounded(ex, levelG) && i.step > 0 && i.start <= i.end
    ensures |r| == i.Count()
  {
    seq(i.Count(), k requires 0 <= k < i.Count() => PredictAt(ex, fld, item, levelG, level, i.Coord(k)))
  }

  /** Some visited cell is missing only above the coarsest level. */
  lemma MissingAboveGround(ex: Existence, levelG: nat, level: nat, i: StridedInterval)
    requires Grounded(ex, levelG) && i.step > 0 && i.start <= i.end
    requires !AllExist(ex, levelG + level, i)
    ensures level > 0
  {
    var k :| 0 <= k < i.Count() && !ex(levelG + level, i.Coord(k));
    assert ex(levelG, i.Coord(k));
  }

  /** At a visited coordinate of `i` one level above the coarsest, the
      cell prediction is the stored value or the stencil over the interval
      predictions on `i / 2`, `i / 2 + 1` and `i / 2 - 1`. */
  lemma StencilAt(ex: Existence, fld: Field, item: nat, levelG: nat, level: nat, i: StridedInterval, k: int)
    requires Grounded(ex, levelG) && Strided(i, level) && level > 0 && 0 <= k < i.Count()
    ensures Strided(Halve(i), level - 1) && Halve(i).Count() == i.Count()
    ensures Strided(Halve(i).Shift(1), level - 1) && Strided(Halve(i).Shift(-1), level - 1)
    ensures var lvl, x := levelG + level, i.Coord(k);
      var parent := Predict(ex, fld, item, levelG, level - 1, Halve(i))[k];
      var right := Predict(ex, fld, item, levelG, level - 1, Halve(i).Shift(1))[k];
      var left := Predict(ex, fld, item, levelG, level - 1, Halve(i).Shift(-1))[k];
      PredictAt(ex, fld, item, levelG, level, x) ==
        if ex(lvl, x) then fld(item, lvl, x) else Interpolate(parent, ParitySign(x), right, left)
  {
    HalveStrided(i, level);
    ShiftStrided(Halve(i), level - 1, 1);
    ShiftStrided(Halve(i), level - 1, -1);
    assert Halve(i).Coord(k) == i.Coord(k) / 2;
  }

  /** One position filled the way the source fills it (the stored value
      where the cell exists, the stencil with sign `dk` otherwise) holds
      the prediction of its coordinate. */
  lemma FilledAt(ex: Existence, fld: Field, item: nat, levelG: nat, level: nat, i: StridedInterval, k: int,
                 m: bool, dk: real, pk: real, rk: real, lk: real, ok: real)
    requires Grounded(ex, levelG) && Strided(i, level) && level > 0 && 0 <= k < i.Count()
    requires Strided(Halve(i), level - 1) && Halve(i).Count() == i.Count()
    requires Strided(Halve(i).Shift(1), level - 1) && Strided(Halve(i).Shift(-1), level - 1)
    requires m == ex(levelG + level, i.Coord(k)) && dk == ParitySign(i.Coord(k))
    requires pk == Predict(ex, fld, item, levelG, level - 1, Halve(i))[k]
    requires rk == Predict(ex, fld, item, levelG, level - 1, Halve(i).Shift(1))[k]
    requires lk == Predict(ex, fld, item, levelG, level - 1, Halve(i).Shift(-1))[k]
    requires ok == if m then fld(item, levelG + level, i.Coord(k)) else Interpolate(pk, dk, rk, lk)
    ensures ok == Predict(ex, fld, item, levelG, level, i)[k]
  {
    StencilAt(ex, fld, item, levelG, level, i, k);
  }

  /** The interval recursion of the source computes `Predict`: the stored
      values when every visited cell exists, and otherwise the combination
      of the predictions on `i / 2`, `i / 2 + 1` and `i / 2 - 1` one level
      coarser. */
  lemma PredictRecursion(ex: Existence, fld: Field, item: nat, levelG: nat, level: nat, i: StridedInterval)
    requires Grounded(ex, levelG) && Strided(i, level)
    ensures AllExist(ex, levelG + level, i) ==> Predict(ex, fld, item, levelG, level, i) == Stored(fld, item, levelG + level, i)
    ensures !AllExist(ex, levelG + level, i) ==>
      && level > 0 && Strided(Halve(i), level - 1)
      && Strided(Halve(i).Shift(1), level - 1) && Strided(Halve(i).Shift(-1), level - 1)
      && Halve(i).Count() == i.Count()
      && Predict(ex, fld, item, levelG, level, i) ==
         Combine(ex, fld, item, levelG + level, i,
           Predict(ex, fld, item, levelG, level - 1, Halve(i)),
           Predict(ex, fld, item, levelG, level - 1, Halve(i).Shift(1)),
           Predict(ex, fld, item, levelG, level - 1, Halve(i).Shift(-1)))
  {
    var lvl := levelG + level;
    var r := Predict(ex, fld, item, levelG, level, i);
    if AllExist(ex, lvl, i) {
      assert r == Stored(fld, item, lvl, i);
    } else {
      MissingAboveGround(ex, levelG, level, i);
      HalveStrided(i, level);
      var ig := Halve(i);
      ShiftStrided(ig, level - 1, 1);
      ShiftStrided(ig, level - 1, -1);
      var parent := Predict(ex, fld, item, levelG, level - 1, ig);
      var right := Predict(ex, fld, item, levelG, level - 1, ig.Shift(1));
      var left := Predict(ex, fld, item, levelG, level - 1, ig.Shift(-1));
      var c := Combine(ex, fld, item, lvl, i, parent, right, left);
      forall k | 0 <= k < i.Count()
        ensures r[k] == c[k]
      {
        var x := i.Coord(k);
        FilledAt(ex, fld, item, levelG, level, i, k, ex(lvl, x), ParitySign(x), parent[k], right[k], left[k], c[k]);
      }
    }
  }

  /** On a linear field the interval prediction returns, at every visited
      coordinate, the field's own value there. */
  lemma PredictReproducesLinear(ex: Existence, fld: Field, item: nat, levelG: nat, level: nat, i: StridedInterval, b: real, c: real)
    requires Grounded(ex, levelG) && Strided(i, level) && Linear(fld, item, b, c)
    ensures Predict(ex, fld, item, levelG, level, i) == Stored(fld, item, levelG + level, i)
  {
    forall k | 0 <= k < i.Count()
      ensures Predict(ex, fld, item, levelG, level, i)[k] == fld(item, levelG + level, i.Coord(k))
    {
      LinearFieldsReproduced(ex, fld, item, levelG, level, i.Coord(k), b, c);
    }
  }

  /** The loop filling the sign buffer `d`: one entry per visited
      coordinate, +1 at even and -1 at odd coordinates. */
  method ParitySigns(i: StridedInterval) returns (d: seq<real>)
    requires i.step > 0 && i.start <= i.end && (i.end - i.start) % i.step == 0
    ensures |d| == i.Count()
    ensures forall k :: 0 <= k < |d| ==> (d[k] == 1.0 <==> i.Coord(k) % 2 == 0)
    ensures forall k :: 0 <= k < |d| ==> (d[k] == -1.0 <==> i.Coord(k) % 2 != 0)
  {
    var buf := new real[i.Count()];
    var ii, iii := i.start, 0;
    while ii < i.end
      invariant 0 <= iii <= i.Count() && ii == i.Coord(iii)
      invariant forall k :: 0 <= k < iii ==> buf[k] == ParitySign(i.Coord(k))
      decreases i.end - ii
    {
      CoordBelowEnd(i, iii);
      buf[iii] := if ii % 2 != 0 then -1.0 else 1.0;
      ii, iii := ii + i.step, iii + 1;
    }
    CoordBelowEnd(i, iii);
    d := buf[..];
  }

  /** `mesh.exists(lvl, i)`: one flag per visited coordinate. */
  function ExistsMask(ex: Existence, lvl: nat, i: StridedInterval): (mask: seq<bool>)
    requires i.step > 0 && i.start <= i.end
    ensures |mask| == i.Count()
    ensures forall k :: 0 <= k < |mask| ==> mask[k] == ex(lvl, i.Coord(k))
  {
    seq(i.Count(), k requires 0 <= k < i.Count() => ex(lvl, i.Coord(k)))
  }

  /** `xt::all(mask)` on the existence mask is `AllExist`: every flag is set
      exactly when every visited cell exists. */
  lemma AllOfMask(ex: Existence, lvl: nat, i: StridedInterval)
    requires i.step > 0 && i.start <= i.end
    ensures AllExist(ex, lvl, i) <==> forall q :: 0 <= q < |ExistsMask(ex, lvl, i)| ==> ExistsMask(ex, lvl, i)[q]
  {
    var mask := ExistsMask(ex, lvl, i);
    if forall q :: 0 <= q < |mask| ==> mask[q] {
      forall k | 0 <= k < i.Count()
        ensures ex(lvl, i.Coord(k))
      {
        assert mask[k];
      }
    }
  }

  /** The interpolated buffer `val`: at every position, the parent
      prediction minus an eighth of the sign times the difference of the
      right and left neighbours' predictions. */
  function Interpolated(parent: seq<real>, right: seq<real>, left: seq<real>, d: seq<real>): (val: seq<real>)
    requires |parent| == |right| == |left| == |d|
    ensures |val| == |d|
    ensures forall k :: 0 <= k < |d| ==> val[k] == Interpolate(parent[k], d[k], right[k], left[k])
  {
    seq(|d|, k requires 0 <= k < |d| => Interpolate(parent[k], d[k], right[k], left[k]))
  }

  /** A memo key: `(item, level_g, level, i)`, the interval by its start. */
  datatype ScalarKey = ScalarKey(item: nat, levelG: nat, level: nat, start: int)

  type ScalarMemo = map<ScalarKey, Entry<seq<real>>>

  /** Every recorded entry holds the prediction of the interval it was
      recorded with, and that interval carries the key's start. */
  ghost predicate Sound(ex: Existence, fld: Field, mem: ScalarMemo)
  {
    forall key :: key in mem ==>
      && mem[key].interval.start == key.start
      && Strided(mem[key].interval, key.level)
      && Grounded(ex, key.levelG)
      && mem[key].value == Predict(ex, fld, key.item, key.levelG, key.level, mem[key].interval)
  }

  /** The two writes into `out`: the interpolated value where the cell is
      missing (the masked view), then, cell by cell, the stored value where
      it exists. */
  method MaskedFill(fld: Field, item: nat, lvl: nat, i: StridedInterval, mask: seq<bool>, val: seq<real>)
    returns (out: seq<real>)
    requires i.step > 0 && i.start <= i.end && (i.end - i.start) % i.step == 0
    requires |mask| == |val| == i.Count()
    ensures |out| == i.Count()
    ensures forall k :: 0 <= k < |out| ==> out[k] == if mask[k] then fld(item, lvl, i.Coord(k)) else val[k]
  {
    var n := i.Count();
    var buf := new real[n];
    forall k | 0 <= k < n && !mask[k] {
      buf[k] := val[k];
    }
    var iMask, iInt := 0, i.start;
    while iInt < i.end
      invariant 0 <= iMask <= n && iInt == i.Coord(iMask)
      invariant forall k :: 0 <= k < n && !mask[k] ==> buf[k] == val[k]
      invariant forall k :: 0 <= k < iMask && mask[k] ==> buf[k] == fld(item, lvl, i.Coord(k))
      decreases i.end - iInt
    {
      CoordBelowEnd(i, iMask);
      if mask[iMask] {
        buf[iMask] := fld(item, lvl, iInt);
      }
      iMask, iInt := iMask + 1, iInt + i.step;
    }
    CoordBelowEnd(i, iMask);
    out := buf[..];
  }

  /** Filling the buffers from the three coarser predictions yields the
      prediction of `i`. */
  lemma FilledIsPredict(ex: Existence, fld: Field, item: nat, levelG: nat, level: nat, i: StridedInterval,
                        mask: seq<bool>, d: seq<real>, parent: seq<real>, right: seq<real>, left: seq<real>, out: seq<real>)
    requires Grounded(ex, levelG) && Strided(i, level) && !AllExist(ex, levelG + level, i)
    requires level > 0 && Strided(Halve(i), level - 1)
    requires Strided(Halve(i).Shift(1), level - 1) && Strided(Halve(i).Shift(-1), level - 1)
    requires parent == Predict(ex, fld, item, levelG, level - 1, Halve(i))
    requires right == Predict(ex, fld, item, levelG, level - 1, Halve(i).Shift(1))
    requires left == Predict(ex, fld, item, levelG, level - 1, Halve(i).Shift(-1))
    requires |mask| == |d| == |out| == i.Count()
    requires forall k :: 0 <= k < |mask| ==> mask[k] == ex(levelG + level, i.Coord(k))
    requires forall k :: 0 <= k < |d| ==> d[k] == ParitySign(i.Coord(k))
    requires |parent| == |right| == |left| == i.Count()
    requires forall k :: 0 <= k < |out| ==>
      out[k] == if mask[k] then fld(item, levelG + level, i.Coord(k)) else Interpolate(parent[k], d[k], right[k], left[k])
    ensures out == Predict(ex, fld, item, levelG, level, i)
  {
    HalveStrided(i, level);
    forall k | 0 <= k < |out|
      ensures out[k] == Predict(ex, fld, item, levelG, level, i)[k]
    {
      FilledAt(ex, fld, item, levelG, level, i, k, mask[k], d[k], parent[k], right[k], left[k], out[k]);
    }
  }

  /** Recording a prediction under its own key keeps the memo sound. */
  lemma InsertKeepsSound(ex: Existence, fld: Field, mem: ScalarMemo, key: ScalarKey, i: StridedInterval, v: seq<real>)
    requires Sound(ex, fld, mem)
    requires i.start == key.start && Strided(i, key.level) && Grounded(ex, key.levelG)
    requires v == Predict(ex, fld, key.item, key.levelG, key.level, i)
    ensures Sound(ex, fld, Insert(mem, key, i, v))
  {
  }

  /** The three predictions one level coarser, on `ig`, `ig + 1` and
      `ig - 1`, in that order, each threading the memo to the next. */
  method Coarser(ex: Existence, fld: Field, item: nat, levelG: nat, level: nat, ig: StridedInterval, mem: ScalarMemo)
    returns (parent: seq<real>, right: seq<real>, left: seq<real>, mem': ScalarMemo)
    requires Grounded(ex, levelG) && Sound(ex, fld, mem)
    requires Strided(ig, level) && Strided(ig.Shift(1), level) && Strided(ig.Shift(-1), level)
    ensures parent == Predict(ex, fld, item, levelG, level, ig)
    ensures right == Predict(ex, fld, item, levelG, level, ig.Shift(1))
    ensures left == Predict(ex, fld, item, levelG, level, ig.Shift(-1))
    ensures Sound(ex, fld, mem') && Extends(mem, mem')
    ensures forall key :: key in mem' && key !in mem ==> key.level <= level
    decreases level, 1
  {
    var m1, m2;
    parent, m1 := Prediction(ex, fld, item, levelG, level, ig, mem);
    right, m2 := Prediction(ex, fld, item, levelG, level, ig.Shift(1), m1);
    left, mem' := Prediction(ex, fld, item, levelG, level, ig.Shift(-1), m2);
    ExtendsTransitive(mem, m1, m2);
    ExtendsTransitive(mem, m2, mem');
  }

  /** `prediction`, with the lookup accepted only for an entry of the same
      size (as `prediction_all` of the shallow-water demo does) and the
      result recorded with `insert`. */
  method Prediction(ex: Existence, fld: Field, item: nat, levelG: nat, level: nat, i: StridedInterval, mem: ScalarMemo)
    returns (out: seq<real>, mem': ScalarMemo)
    requires Grounded(ex, levelG) && Strided(i, level) && Sound(ex, fld, mem)
    ensures out == Predict(ex, fld, item, levelG, level, i)
    ensures Sound(ex, fld, mem') && Extends(mem, mem')
    ensures FindSameSize(mem, ScalarKey(item, levelG, level, i.start), i).Some? ==> mem' == mem
    ensures AllExist(ex, levelG + level, i) ==> mem' == mem
    ensures !AllExist(ex, levelG + level, i) ==> ScalarKey(item, levelG, level, i.start) in mem'
    ensures !AllExist(ex, levelG + level, i) && ScalarKey(item, levelG, level, i.start) !in mem ==>
      mem'[ScalarKey(item, levelG, level, i.start)] == Entry(i, out)
    ensures forall key :: key in mem' && key !in mem ==> key.level <= level
    decreases level, 0
  {
    var key := ScalarKey(item, levelG, level, i.start);
    var found := FindSameSize(mem, key, i);
    if found.Some? {
      assert mem[key].interval == i;
      return found.value, mem;
    }
    var lvl := levelG + level;
    var n := i.Count();
    var mask := ExistsMask(ex, lvl, i);
    AllOfMask(ex, lvl, i);
    if forall k :: 0 <= k < n ==> mask[k] {
      return Stored(fld, item, lvl, i), mem;
    }
    assert !AllExist(ex, lvl, i);
    HalveStrided(i, level);
    var ig := Halve(i);
    ShiftStrided(ig, level - 1, 1);
    ShiftStrided(ig, level - 1, -1);
    var d := ParitySigns(i);
    var parent, right, left, m3 := Coarser(ex, fld, item, levelG, level - 1, ig, mem);
    var val := Interpolated(parent, right, left, d);
    out := MaskedFill(fld, item, lvl, i, mask, val);
    FilledIsPredict(ex, fld, item, levelG, level, i, mask, d, parent, right, left, out);
    mem' := Insert(m3, key, i, out);
    assert key !in mem ==> key !in m3;
    InsertKeepsSound(ex, fld, m3, key, i, out);
    InsertExtends(m3, key, i, out);
    ExtendsTransitive(mem, m3, mem');
  }

  /** The unsigned `level` gives the recursion no floor: it is only
      sound where every cell exists at `level_g`, and then a level-0 call
      never recurses. */
  lemma GroundedStopsAtLevelZero(ex: Existence, fld: Field, item: nat, levelG: nat, i: StridedInterval)
    requires Grounded(ex, levelG) && Strided(i, 0)
    ensures AllExist(ex, levelG, i)
    ensures Predict(ex, fld, item, levelG, 0, i) == Stored(fld, item, levelG, i)
  {
  }

  /** Only the cells of level 0 exist. */
  function OnlyCoarsest(level: nat, x: int): bool
  {
    level == 0
  }

  function Zero(item: nat, level: nat, x: int): real
  {
    0.0
  }

  /** A second identical call, on the memo the first one left, is answered
      from the memo: the same values, and the memo stays as it is.  This
      needs the key to be absent or recorded with an interval of the same
      size to begin with. */
  method RepeatedPredictionHits(ex: Existence, fld: Field, item: nat, levelG: nat, level: nat, i: StridedInterval, mem: ScalarMemo)
    returns (first: seq<real>, second: seq<real>, mem1: ScalarMemo, mem2: ScalarMemo)
    requires Grounded(ex, levelG) && Strided(i, level) && Sound(ex, fld, mem)
    requires var key := ScalarKey(item, levelG, level, i.start);
      key in mem ==> mem[key].interval.Size() == i.Size()
    ensures first == second == Predict(ex, fld, item, levelG, level, i)
    ensures mem2 == mem1 && Extends(mem, mem1)
  {
    first, mem1 := Prediction(ex, fld, item, levelG, level, i, mem);
    second, mem2 := Prediction(ex, fld, item, levelG, level, i, mem1);
  }

  /** Storing through `operator[]` a result for an interval with another
      number of cells, under a key already recorded, breaks soundness: the
      entry keeps its first interval but takes the new values.  In the code
      as written a recorded key returns early, so the store only ever meets
      an absent key and acts as `insert` (`InsertVersusAssign`); this is why
      a size-checked lookup, which lets a recorded key through, needs
      `insert` and not `operator[]`. */
  lemma AssignOtherCountUnsound(ex: Existence, fld: Field, mem: ScalarMemo, key: ScalarKey, j: StridedInterval, v: seq<real>)
    requires Sound(ex, fld, mem) && key in mem
    requires |v| != mem[key].interval.Count()
    ensures !Sound(ex, fld, Assign(mem, key, j, v))
  {
    var bad := Assign(mem, key, j, v);
    assert bad[key] == Entry(mem[key].interval, v);
  }

  /** An interval whose first cell is missing is not all present. */
  lemma FirstMissing(ex: Existence, lvl: nat, i: StridedInterval)
    requires i.step > 0 && i.start + i.step <= i.end && !ex(lvl, i.start)
    ensures !AllExist(ex, lvl, i)
  {
    assert i.Coord(0) == i.start;
  }

  /** A sound memo holding the two-cell interval `[0, 4)` of step 2 under
      the key of start 0 at level 1: the lookup without size check answers
      the one-cell request `[0, 2)` of step 2 with two values, the
      size-checked lookup misses, and `operator[]` would break soundness if
      the size-checked lookup were paired with it.  The defect of the code
      as written is the first of these: its `operator[]` is never reached
      with a recorded key. */
  lemma StaleEntry(mem: ScalarMemo)
    requires Sound(OnlyCoarsest, Zero, mem)
    requires ScalarKey(0, 0, 1, 0) in mem && mem[ScalarKey(0, 0, 1, 0)].interval == StridedInterval(0, 4, 2)
    ensures var key, i2 := ScalarKey(0, 0, 1, 0), StridedInterval(0, 2, 2);
      && Grounded(OnlyCoarsest, 0)
      && FindAnyExtent(mem, key).Some? && |FindAnyExtent(mem, key).value| == 2
      && i2.Count() == 1 && |Predict(OnlyCoarsest, Zero, 0, 0, 1, i2)| == 1
      && FindSameSize(mem, key, i2).None?
      && !Sound(OnlyCoarsest, Zero, Assign(mem, key, i2, Predict(OnlyCoarsest, Zero, 0, 0, 1, i2)))
  {
    var key, i4, i2 := ScalarKey(0, 0, 1, 0), StridedInterval(0, 4, 2), StridedInterval(0, 2, 2);
    assert Grounded(OnlyCoarsest, 0);
    assert i4.Count() == 2 && i2.Count() == 1;
    assert |mem[key].value| == 2;
    AssignOtherCountUnsound(OnlyCoarsest, Zero, mem, key, i2, Predict(OnlyCoarsest, Zero, 0, 0, 1, i2));
  }

  /** The memo state the lookup as written goes wrong on is reachable.  With
      level 0 complete and level 1 empty, predicting `[0, 4)` of step 2 at
      level 1 from an empty memo records its two values under start 0 (no
      lookup hits on the way, so `operator[]` and `insert` record the same
      entries).  On the memo it leaves, the later one-cell request `[0, 2)`
      of step 2 gets those two values from the lookup as written, where the
      size-checked lookup misses.  Had the size-checked lookup been paired
      with `operator[]`, storing that prediction would leave a memo that is
      not sound; as written the request returns early and stores nothing. */
  method UncheckedLookupWrongLength() returns (mem: ScalarMemo, stale: seq<real>)
    ensures var key, i4 := ScalarKey(0, 0, 1, 0), StridedInterval(0, 4, 2);
      && Sound(OnlyCoarsest, Zero, mem)
      && key in mem && mem[key].interval == i4
      && FindAnyExtent(mem, key) == Some(stale) && |stale| == 2
    ensures var key, i2 := ScalarKey(0, 0, 1, 0), StridedInterval(0, 2, 2);
      && |Predict(OnlyCoarsest, Zero, 0, 0, 1, i2)| == 1
      && FindSameSize(mem, key, i2).None?
      && !Sound(OnlyCoarsest, Zero, Assign(mem, key, i2, Predict(OnlyCoarsest, Zero, 0, 0, 1, i2)))
  {
    var key, i4 := ScalarKey(0, 0, 1, 0), StridedInterval(0, 4, 2);
    assert Grounded(OnlyCoarsest, 0);
    assert Pow2(1) == 2;
    assert Strided(i4, 1);
    FirstMissing(OnlyCoarsest, 1, i4);
    var out;
    out, mem := Prediction(OnlyCoarsest, Zero, 0, 0, 1, i4, map[]);
    assert mem[key] == Entry(i4, out);
    stale := out;
    StaleEntry(mem);
  }
}
