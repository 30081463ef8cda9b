/** The memoised batch prediction `prediction_all(f, level_g, level, k,
    mem_map)` of the shallow-water demo: every component of the field at
    once, one row per coordinate of a unit-step interval `k`, rebuilt from
    the parent intervals `k >> 1`, `(k >> 1) - 1` and `(k >> 1) + 1` one
    level coarser.  The Burgers demo's `prediction_all` has the same
    structure with two components; its combination step, which chooses the
    stencil sign and the parent row by row position rather than by
    coordinate, is modelled as written at the end of this module. */
module BatchPrediction {
  import opened StridedIntervals
  import opened Memo
  import opened Multiresolution
  import opened ScalarPrediction

  /** An interval of step 1 (`kg.step = 1`): one row per coordinate. */
  predicate Unit(k: StridedInterval)
  {
    k.step == 1 && k.start <= k.end
  }

  lemma UnitCoords(k: StridedInterval)
    requires Unit(k)
    ensures k.Count() == k.Size()
    ensures forall q :: k.Coord(q) == k.start + q
  {
  }

  /** Every row of `rows` holds one value per component. */
  predicate Rows(rows: seq<seq<real>>, comps: nat)
  {
    forall r :: 0 <= r < |rows| ==> |rows[r]| == comps
  }

  /** `f(level, {x, x + 1})[0]`: the stored values of every component in
      cell `x`. */
  function StoredRow(fld: Field, comps: nat, lvl: nat, x: int): (row: seq<real>)
    ensures |row| == comps
  {
    seq(comps, c requires 0 <= c < comps => fld(c, lvl, x))
  }

  /** `f(level, k)`: the stored row of every coordinate of `k`. */
  function StoredRows(fld: Field, comps: nat, lvl: nat, k: StridedInterval): (rows: seq<seq<real>>)
    requires Unit(k)
    ensures |rows| == k.Size()
    ensures forall q :: 0 <= q < |rows| ==> rows[q] == StoredRow(fld, comps, lvl, k.start + q)
    ensures Rows(rows, comps)
  {
    seq(k.Size(), q requires 0 <= q < k.Size() => StoredRow(fld, comps, lvl, k.start + q))
  }

  /** The predictions of every component in cell `x`; a cell that exists
      keeps its stored row. */
  function PredictRow(ex: Existence, fld: Field, comps: nat, levelG: nat, level: nat, x: int): (row: seq<real>)
    requires Grounded(ex, levelG)
    ensures |row| == comps
    ensures ex(levelG + level, x) ==> row == StoredRow(fld, comps, levelG + level, x)
  {
    seq(comps, c requires 0 <= c < comps => PredictAt(ex, fld, c, levelG, level, x))
  }

  /** The value `prediction_all` computes: the predicted row of every
      coordinate of `k`, `k.size()` rows of `comps` values. */
  function PredictAll(ex: Existence, fld: Field, comps: nat, levelG: nat, level: nat, k: StridedInterval): (rows: seq<seq<real>>)
    requires Grounded(ex, levelG) && Unit(k)
    ensures |rows| == k.Size()
  {
    seq(k.Size(), q requires 0 <= q < k.Size() => PredictRow(ex, fld, comps, levelG, level, k.start + q))
  }

  /** Row `q` of the batch prediction is the predicted row of coordinate
      `k.start + q`, and every row holds `comps` values. */
  lemma PredictAllRows(ex: Existence, fld: Field, comps: nat, levelG: nat, level: nat, k: StridedInterval)
    requires Grounded(ex, levelG) && Unit(k)
    ensures forall q :: 0 <= q < k.Size() ==>
      PredictAll(ex, fld, comps, levelG, level, k)[q] == PredictRow(ex, fld, comps, levelG, level, k.start + q)
    ensures Rows(PredictAll(ex, fld, comps, levelG, level, k), comps)
  {
  }

  /** When every coordinate of `k` exists the prediction is the stored
      rows. */
  lemma StoredIsPredicted(ex: Existence, fld: Field, comps: nat, levelG: nat, level: nat, k: StridedInterval)
    requires Grounded(ex, levelG) && Unit(k) && AllExist(ex, levelG + level, k)
    ensures PredictAll(ex, fld, comps, levelG, level, k) == StoredRows(fld, comps, levelG + level, k)
  {
    UnitCoords(k);
    forall q | 0 <= q < k.Size()
      ensures PredictAll(ex, fld, comps, levelG, level, k)[q] == StoredRows(fld, comps, levelG + level, k)[q]
    {
      assert ex(levelG + level, k.Coord(q));
      assert PredictAll(ex, fld, comps, levelG, level, k)[q] == PredictRow(ex, fld, comps, levelG, level, k.start + q);
    }
  }

  /** Column `c` of the batch prediction is the scalar prediction of
      component `c` on the same interval. */
  lemma BatchColumnsAreScalar(ex: Existence, fld: Field, comps: nat, levelG: nat, level: nat, k: StridedInterval, c: nat)
    requires Grounded(ex, levelG) && Unit(k) && c < comps
    ensures forall q :: 0 <= q < k.Size() ==>
      && |PredictAll(ex, fld, comps, levelG, level, k)[q]| == comps
      && PredictAll(ex, fld, comps, levelG, level, k)[q][c] == Predict(ex, fld, c, levelG, level, k)[q]
  {
    UnitCoords(k);
    PredictAllRows(ex, fld, comps, levelG, level, k);
    forall q | 0 <= q < k.Size()
      ensures PredictAll(ex, fld, comps, levelG, level, k)[q][c] == Predict(ex, fld, c, levelG, level, k)[q]
    {
      assert PredictAll(ex, fld, comps, levelG, level, k)[q] == PredictRow(ex, fld, comps, levelG, level, k.start + q);
      assert Predict(ex, fld, c, levelG, level, k)[q] == PredictAt(ex, fld, c, levelG, level, k.Coord(q));
    }
  }

  /** On a field whose every component is linear, the batch prediction
      returns the stored rows. */
  lemma BatchReproducesLinear(ex: Existence, fld: Field, comps: nat, levelG: nat, level: nat, k: StridedInterval,
                              bs: seq<real>, cs: seq<real>)
    requires Grounded(ex, levelG) && Unit(k)
    requires |bs| == |cs| == comps && forall c :: 0 <= c < comps ==> Linear(fld, c, bs[c], cs[c])
    ensures PredictAll(ex, fld, comps, levelG, level, k) == StoredRows(fld, comps, levelG + level, k)
  {
    forall q | 0 <= q < k.Size()
      ensures PredictAll(ex, fld, comps, levelG, level, k)[q] == StoredRows(fld, comps, levelG + level, k)[q]
    {
      var x := k.start + q;
      forall c | 0 <= c < comps
        ensures PredictRow(ex, fld, comps, levelG, level, x)[c] == StoredRow(fld, comps, levelG + level, x)[c]
      {
        LinearFieldsReproduced(ex, fld, c, levelG, level, x, bs[c], cs[c]);
      }
    }
  }

  /** The stencil on one row, component by component: the parent value
      plus `sign` times an eighth of the west-east difference; sign +1 for
      the even-child view, -1 for the odd-child one. */
  function StencilRow(earth: seq<real>, west: seq<real>, east: seq<real>, sign: real): (row: seq<real>)
    requires |earth| == |west| == |east|
    ensures |row| == |earth|
  {
    seq(|earth|, c requires 0 <= c < |earth| => earth[c] + sign * Eighth * (west[c] - east[c]))
  }

  /** `start_even`: 1 when `k.start` is odd, else 0, the first row of `k`
      whose coordinate is even. */
  function StartEven(k: StridedInterval): (se: nat)
    ensures se <= 1 && (k.start + se) % 2 == 0
  {
    if k.start % 2 != 0 then 1 else 0
  }

  /** `start_odd`: 0 when `k.start` is odd, else 1, the first row of `k`
      whose coordinate is odd. */
  function StartOdd(k: StridedInterval): (so: nat)
    ensures so <= 1 && (k.start + so) % 2 == 1
  {
    if k.start % 2 != 0 then 0 else 1
  }

  /** `end_odd`: one less than the size of `kg` when `k.end` is odd, the
      size of `kg` otherwise; the number of parent rows the odd-child view
      reads. */
  function EndOdd(k: StridedInterval): (eo: int)
    requires Unit(k)
    ensures ShiftRight(k).Size() - 1 <= eo <= ShiftRight(k).Size()
  {
    var kg := ShiftRight(k);
    if k.end % 2 != 0 then kg.Size() - 1 else kg.Size()
  }

  /** The two strided views of `val` have as many rows as the parent views
      assigned to them: `n - start_even` rows stepping by 2 against the
      `m - start_even` parent rows from `start_even` on, and `n - start_odd`
      rows stepping by 2 against the first `end_odd` parent rows. */
  predicate ViewsFit(n: nat, m: nat, se: nat, so: nat, eo: int)
  {
    && se + so == 1
    && (n - se + 1) / 2 == m - se
    && (n - so + 1) / 2 == eo
    && 0 <= eo <= m
  }

  /** The view shapes agree for every non-empty unit interval, with
      `kg = k >> 1`. */
  lemma ViewShapesAgree(k: StridedInterval)
    requires Unit(k) && k.start < k.end
    ensures ViewsFit(k.Size(), ShiftRight(k).Size(), StartEven(k), StartOdd(k), EndOdd(k))
  {
    var a, e := k.start / 2, k.end;
    assert ShiftRight(k).Size() == (e - 1) / 2 + 1 - a;
  }

  /** The parent row a view pairs with row `q` of `val`: `start_even +
      (q - start_even) / 2` in the even-child view, `(q - start_odd) / 2` in
      the odd-child one. */
  function ViewSource(n: nat, m: nat, se: nat, so: nat, eo: int, q: int): (r: nat)
    requires ViewsFit(n, m, se, so, eo) && 0 <= q < n
    ensures r < m
  {
    if (q - se) % 2 == 0 then
      ViewHalf(q - se, n - 1 - se);
      se + (q - se) / 2
    else
      ViewHalf(q - so, n - 1 - so);
      (q - so) / 2
  }

  lemma ViewHalf(t: int, u: int)
    requires -1 <= t <= u
    ensures t / 2 <= u / 2 && u / 2 < (u + 2) / 2
  {
  }

  /** The two strided assignments into `val`: every other row from
      `start_even` on takes the even-child stencil over the parent rows from
      `start_even` on, and every other row from `start_odd` on takes the
      odd-child stencil over the first `end_odd` parent rows.  Row `q` is
      filled from the parent row its view pairs it with. */
  function ViewRows(earth: seq<seq<real>>, west: seq<seq<real>>, east: seq<seq<real>>, comps: nat,
                    n: nat, se: nat, so: nat, eo: int): (val: seq<seq<real>>)
    requires |earth| == |west| == |east| && Rows(earth, comps) && Rows(west, comps) && Rows(east, comps)
    requires ViewsFit(n, |earth|, se, so, eo)
    ensures |val| == n
  {
    seq(n, q requires 0 <= q < n =>
      var r := ViewSource(n, |earth|, se, so, eo, q);
      StencilRow(earth[r], west[r], east[r], if (q - se) % 2 == 0 then 1.0 else -1.0))
  }

  /** In both views, row `q` of `k` is paired with the parent of its
      coordinate, and lies in the even-child view exactly when that
      coordinate is even. */
  lemma ViewSourceIsParent(k: StridedInterval, q: int)
    requires Unit(k) && k.start < k.end && 0 <= q < k.Size()
    requires ViewsFit(k.Size(), ShiftRight(k).Size(), StartEven(k), StartOdd(k), EndOdd(k))
    ensures ViewSource(k.Size(), ShiftRight(k).Size(), StartEven(k), StartOdd(k), EndOdd(k), q) == (k.start + q) / 2 - k.start / 2
    ensures (q - StartEven(k)) % 2 == 0 <==> (k.start + q) % 2 == 0
  {
    var s, se, so := k.start, StartEven(k), StartOdd(k);
    if s % 2 == 0 {
      assert s == 2 * (s / 2);
    } else {
      assert s == 2 * (s / 2) + 1;
    }
  }

  /** Child coordinate `x = k.start + q` reads parent row `(x >> 1) -
      kg.start` of the views, with the stencil sign of its own parity. */
  lemma ViewRowAt(k: StridedInterval, earth: seq<seq<real>>, west: seq<seq<real>>, east: seq<seq<real>>, comps: nat, q: int)
    requires Unit(k) && k.start < k.end && 0 <= q < k.Size()
    requires |earth| == |west| == |east| == ShiftRight(k).Size()
    requires Rows(earth, comps) && Rows(west, comps) && Rows(east, comps)
    requires ViewsFit(k.Size(), |earth|, StartEven(k), StartOdd(k), EndOdd(k))
    ensures var x := k.start + q;
      var r := x / 2 - ShiftRight(k).start;
      && 0 <= r < |earth|
      && ViewRows(earth, west, east, comps, k.Size(), StartEven(k), StartOdd(k), EndOdd(k))[q]
         == StencilRow(earth[r], west[r], east[r], ParitySign(x))
  {
    ViewSourceIsParent(k, q);
  }

  /** The parent rows of child coordinate `x = k.start + q`: row
      `(x >> 1) - kg.start` of the predictions on `kg = k >> 1`, `kg - 1`
      and `kg + 1` one level coarser is the predicted row of `x >> 1`,
      `(x >> 1) - 1` and `(x >> 1) + 1`. */
  lemma ParentRowsAt(ex: Existence, fld: Field, comps: nat, levelG: nat, levelP: nat, k: StridedInterval, q: int,
                     earth: seq<seq<real>>, west: seq<seq<real>>, east: seq<seq<real>>)
    requires Grounded(ex, levelG) && Unit(k) && 0 <= q < k.Size()
    requires earth == PredictAll(ex, fld, comps, levelG, levelP, ShiftRight(k))
    requires west == PredictAll(ex, fld, comps, levelG, levelP, ShiftRight(k).Shift(-1))
    requires east == PredictAll(ex, fld, comps, levelG, levelP, ShiftRight(k).Shift(1))
    ensures var x := k.start + q;
      var r := x / 2 - ShiftRight(k).start;
      && 0 <= r < |earth| == |west| == |east|
      && earth[r] == PredictRow(ex, fld, comps, levelG, levelP, x / 2)
      && west[r] == PredictRow(ex, fld, comps, levelG, levelP, x / 2 - 1)
      && east[r] == PredictRow(ex, fld, comps, levelG, levelP, x / 2 + 1)
  {
    var kg := ShiftRight(k);
    PredictAllRows(ex, fld, comps, levelG, levelP, kg);
    PredictAllRows(ex, fld, comps, levelG, levelP, kg.Shift(-1));
    PredictAllRows(ex, fld, comps, levelG, levelP, kg.Shift(1));
  }

  /** One row filled the way the source fills it (the stored row where the
      cell exists, the view's stencil row over the parent rows otherwise)
      is the predicted row of its coordinate. */
  lemma FilledRowAt(ex: Existence, fld: Field, comps: nat, levelG: nat, level: nat, x: int,
                    earth: seq<real>, west: seq<real>, east: seq<real>, m: bool, v: seq<real>, o: seq<real>)
    requires Grounded(ex, levelG) && level > 0
    requires earth == PredictRow(ex, fld, comps, levelG, level - 1, x / 2)
    requires west == PredictRow(ex, fld, comps, levelG, level - 1, x / 2 - 1)
    requires east == PredictRow(ex, fld, comps, levelG, level - 1, x / 2 + 1)
    requires m == ex(levelG + level, x) && v == StencilRow(earth, west, east, ParitySign(x))
    requires o == if m then StoredRow(fld, comps, levelG + level, x) else v
    ensures o == PredictRow(ex, fld, comps, levelG, level, x)
  {
    if !m {
      var s := ParitySign(x);
      forall c | 0 <= c < comps
        ensures v[c] == PredictRow(ex, fld, comps, levelG, level, x)[c]
      {
        assert v[c] == Interpolate(earth[c], s, east[c], west[c]);
      }
    }
  }

  /** The loop after the masked assignment: rows whose coordinate exists
      take the stored row, every other row keeps the view value. */
  method MaskedFillRows(fld: Field, comps: nat, lvl: nat, k: StridedInterval, mask: seq<bool>, val: seq<seq<real>>)
    returns (out: seq<seq<real>>)
    requires Unit(k) && |mask| == |val| == k.Size()
    ensures |out| == k.Size()
    ensures forall q :: 0 <= q < |out| ==> out[q] == if mask[q] then StoredRow(fld, comps, lvl, k.start + q) else val[q]
  {
    var n := k.Size();
    var buf := new seq<real>[n];
    forall q | 0 <= q < n && !mask[q] {
      buf[q] := val[q];
    }
    var kMask, kInt := 0, k.start;
    while kInt < k.end
      invariant 0 <= kMask <= n && kInt == k.start + kMask
      invariant forall q :: 0 <= q < n && !mask[q] ==> buf[q] == val[q]
      invariant forall q :: 0 <= q < kMask && mask[q] ==> buf[q] == StoredRow(fld, comps, lvl, k.start + q)
      decreases k.end - kInt
    {
      if mask[kMask] {
        buf[kMask] := StoredRow(fld, comps, lvl, kInt);
      }
      kMask, kInt := kMask + 1, kInt + 1;
    }
    out := buf[..];
  }

  /** Row `q` filled from the three parent predictions is row `q` of the
      prediction of `k`. */
  lemma BatchRowAt(ex: Existence, fld: Field, comps: nat, levelG: nat, level: nat, k: StridedInterval,
                   earth: seq<seq<real>>, west: seq<seq<real>>, east: seq<seq<real>>, q: int,
                   m: bool, v: seq<real>, o: seq<real>)
    requires Grounded(ex, levelG) && Unit(k) && k.start < k.end && level > 0 && 0 <= q < k.Size()
    requires earth == PredictAll(ex, fld, comps, levelG, level - 1, ShiftRight(k))
    requires west == PredictAll(ex, fld, comps, levelG, level - 1, ShiftRight(k).Shift(-1))
    requires east == PredictAll(ex, fld, comps, levelG, level - 1, ShiftRight(k).Shift(1))
    requires ViewsFit(k.Size(), |earth|, StartEven(k), StartOdd(k), EndOdd(k))
    requires Rows(earth, comps) && Rows(west, comps) && Rows(east, comps)
    requires v == ViewRows(earth, west, east, comps, k.Size(), StartEven(k), StartOdd(k), EndOdd(k))[q]
    requires m == ex(levelG + level, k.start + q)
    requires o == if m then StoredRow(fld, comps, levelG + level, k.start + q) else v
    ensures o == PredictAll(ex, fld, comps, levelG, level, k)[q]
  {
    var x := k.start + q;
    var r := x / 2 - ShiftRight(k).start;
    PredictAllRows(ex, fld, comps, levelG, level, k);
    assert PredictAll(ex, fld, comps, levelG, level, k)[q] == PredictRow(ex, fld, comps, levelG, level, x);
    ParentRowsAt(ex, fld, comps, levelG, level - 1, k, q, earth, west, east);
    ViewRowAt(k, earth, west, east, comps, q);
    FilledRowAt(ex, fld, comps, levelG, level, x, earth[r], west[r], east[r], m, v, o);
  }

  /** Filling the rows from the three parent predictions yields the
      prediction of `k`. */
  lemma BatchFilledIsPredict(ex: Existence, fld: Field, comps: nat, levelG: nat, level: nat, k: StridedInterval,
                             earth: seq<seq<real>>, west: seq<seq<real>>, east: seq<seq<real>>,
                             mask: seq<bool>, val: seq<seq<real>>, out: seq<seq<real>>)
    requires Grounded(ex, levelG) && Unit(k) && k.start < k.end && level > 0
    requires earth == PredictAll(ex, fld, comps, levelG, level - 1, ShiftRight(k))
    requires west == PredictAll(ex, fld, comps, levelG, level - 1, ShiftRight(k).Shift(-1))
    requires east == PredictAll(ex, fld, comps, levelG, level - 1, ShiftRight(k).Shift(1))
    requires ViewsFit(k.Size(), |earth|, StartEven(k), StartOdd(k), EndOdd(k))
    requires Rows(earth, comps) && Rows(west, comps) && Rows(east, comps)
    requires val == ViewRows(earth, west, east, comps, k.Size(), StartEven(k), StartOdd(k), EndOdd(k))
    requires |mask| == |out| == k.Count()
    requires forall q :: 0 <= q < |mask| ==> mask[q] == ex(levelG + level, k.Coord(q))
    requires forall q :: 0 <= q < |out| ==> out[q] == if mask[q] then StoredRow(fld, comps, levelG + level, k.start + q) else val[q]
    ensures out == PredictAll(ex, fld, comps, levelG, level, k)
  {
    UnitCoords(k);
    forall q | 0 <= q < |out|
      ensures out[q] == PredictAll(ex, fld, comps, levelG, level, k)[q]
    {
      BatchRowAt(ex, fld, comps, levelG, level, k, earth, west, east, q, mask[q], val[q], out[q]);
    }
  }

  /** The part of a miss after the parent rows are known: the three
      strided views of `val` combine them, and the masked loop puts the
      stored rows back where the cells exist (the existence mask is taken
      again here; it is the one the caller tested).  The result is the
      prediction of `k`. */
  method RefineRows(ex: Existence, fld: Field, comps: nat, levelG: nat, level: nat, k: StridedInterval,
                    earth: seq<seq<real>>, west: seq<seq<real>>, east: seq<seq<real>>)
    returns (out: seq<seq<real>>)
    requires Grounded(ex, levelG) && Unit(k) && k.start < k.end && level > 0
    requires earth == PredictAll(ex, fld, comps, levelG, level - 1, ShiftRight(k))
    requires west == PredictAll(ex, fld, comps, levelG, level - 1, ShiftRight(k).Shift(-1))
    requires east == PredictAll(ex, fld, comps, levelG, level - 1, ShiftRight(k).Shift(1))
    requires Rows(earth, comps) && Rows(west, comps) && Rows(east, comps)
    ensures out == PredictAll(ex, fld, comps, levelG, level, k)
  {
    var n := k.Size();
    var mask := ExistsMask(ex, levelG + level, k);
    UnitCoords(k);
    ViewShapesAgree(k);
    var val := ViewRows(earth, west, east, comps, n, StartEven(k), StartOdd(k), EndOdd(k));
    out := MaskedFillRows(fld, comps, levelG + level, k, mask, val);
    BatchFilledIsPredict(ex, fld, comps, levelG, level, k, earth, west, east, mask, val, out);
  }

  /** A memo key: `(level_g, level, k)`, the interval by its start. */
  datatype BatchKey = BatchKey(levelG: nat, level: nat, start: int)

  type BatchMemo = map<BatchKey, Entry<seq<seq<real>>>>

  /** Every recorded entry holds the batch prediction of the unit interval
      it was recorded with, and that interval carries the key's start. */
  ghost predicate BatchSound(ex: Existence, fld: Field, comps: nat, mem: BatchMemo)
  {
    forall key :: key in mem ==>
      && mem[key].interval.start == key.start
      && Unit(mem[key].interval)
      && Grounded(ex, key.levelG)
      && mem[key].value == PredictAll(ex, fld, comps, key.levelG, key.level, mem[key].interval)
  }

  /** Recording a batch prediction under its own key keeps the memo sound. */
  lemma BatchInsertKeepsSound(ex: Existence, fld: Field, comps: nat, mem: BatchMemo, key: BatchKey, k: StridedInterval, v: seq<seq<real>>)
    requires BatchSound(ex, fld, comps, mem)
    requires k.start == key.start && Unit(k) && Grounded(ex, key.levelG)
    requires v == PredictAll(ex, fld, comps, key.levelG, key.level, k)
    ensures BatchSound(ex, fld, comps, Insert(mem, key, k, v))
  {
  }

  /** `earth`, `W` and `E`: the predictions one level coarser on `kg`,
      `kg - 1` and `kg + 1`, in that order, each threading the memo to the
      next. */
  method CoarserRows(ex: Existence, fld: Field, comps: nat, levelG: nat, level: nat, kg: StridedInterval, mem: BatchMemo)
    returns (earth: seq<seq<real>>, west: seq<seq<real>>, east: seq<seq<real>>, mem': BatchMemo)
    requires Grounded(ex, levelG) && Unit(kg) && BatchSound(ex, fld, comps, mem)
    ensures earth == PredictAll(ex, fld, comps, levelG, level, kg)
    ensures west == PredictAll(ex, fld, comps, levelG, level, kg.Shift(-1))
    ensures east == PredictAll(ex, fld, comps, levelG, level, kg.Shift(1))
    ensures Rows(earth, comps) && Rows(west, comps) && Rows(east, comps)
    ensures BatchSound(ex, fld, comps, mem') && Extends(mem, mem')
    ensures forall key :: key in mem' && key !in mem ==> key.level <= level
    decreases level, 1
  {
    var m1, m2;
    earth, m1 := PredictionAll(ex, fld, comps, levelG, level, kg, mem);
    west, m2 := PredictionAll(ex, fld, comps, levelG, level, kg.Shift(-1), m1);
    east, mem' := PredictionAll(ex, fld, comps, levelG, level, kg.Shift(1), m2);
    ExtendsTransitive(mem, m1, m2);
    ExtendsTransitive(mem, m2, mem');
    PredictAllRows(ex, fld, comps, levelG, level, kg);
    PredictAllRows(ex, fld, comps, levelG, level, kg.Shift(-1));
    PredictAllRows(ex, fld, comps, levelG, level, kg.Shift(1));
  }

  /** `prediction_all`: a memo entry of the same start counts only when
      its interval has the size of `k`; the result is recorded with
      `insert`, so an existing entry is never overwritten. */
  method PredictionAll(ex: Existence, fld: Field, comps: nat, levelG: nat, level: nat, k: StridedInterval, mem: BatchMemo)
    returns (out: seq<seq<real>>, mem': BatchMemo)
    requires Grounded(ex, levelG) && Unit(k) && BatchSound(ex, fld, comps, mem)
    ensures out == PredictAll(ex, fld, comps, levelG, level, k)
    ensures BatchSound(ex, fld, comps, mem') && Extends(mem, mem')
    ensures FindSameSize(mem, BatchKey(levelG, level, k.start), k).Some? ==> mem' == mem
    ensures AllExist(ex, levelG + level, k) ==> mem' == mem
    ensures !AllExist(ex, levelG + level, k) ==> BatchKey(levelG, level, k.start) in mem'
    ensures !AllExist(ex, levelG + level, k) && BatchKey(levelG, level, k.start) !in mem ==>
      mem'[BatchKey(levelG, level, k.start)] == Entry(k, out)
    ensures forall key :: key in mem' && key !in mem ==> key.level <= level
    decreases level, 0
  {
    var key := BatchKey(levelG, level, k.start);
    var found := FindSameSize(mem, key, k);
    if found.Some? {
      assert mem[key].interval == k;
      return found.value, mem;
    }
    var lvl := levelG + level;
    var mask := ExistsMask(ex, lvl, k);
    AllOfMask(ex, lvl, k);
    if forall q :: 0 <= q < |mask| ==> mask[q] {
      StoredIsPredicted(ex, fld, comps, levelG, level, k);
      return StoredRows(fld, comps, lvl, k), mem;
    }
    assert !AllExist(ex, lvl, k);
    MissingAboveGround(ex, levelG, level, k);
    assert k.start < k.end by {
      UnitCoords(k);
    }
    var earth, west, east, m3 := CoarserRows(ex, fld, comps, levelG, level - 1, ShiftRight(k), mem);
    out := RefineRows(ex, fld, comps, levelG, level, k, earth, west, east);
    mem' := Insert(m3, key, k, out);
    assert key !in mem ==> key !in m3;
    BatchInsertKeepsSound(ex, fld, comps, m3, key, k, out);
    InsertExtends(m3, key, k, out);
    ExtendsTransitive(mem, m3, mem');
  }

  /** A second identical call, on the memo the first one left, is answered
      from the memo: the same rows, and the memo stays as it is.  This needs
      the key to be absent or recorded with an interval of the same size to
      begin with. */
  method RepeatedPredictionAllHits(ex: Existence, fld: Field, comps: nat, levelG: nat, level: nat, k: StridedInterval, mem: BatchMemo)
    returns (first: seq<seq<real>>, second: seq<seq<real>>, mem1: BatchMemo, mem2: BatchMemo)
    requires Grounded(ex, levelG) && Unit(k) && BatchSound(ex, fld, comps, mem)
    requires var key := BatchKey(levelG, level, k.start);
      key in mem ==> mem[key].interval.Size() == k.Size()
    ensures first == second == PredictAll(ex, fld, comps, levelG, level, k)
    ensures mem2 == mem1 && Extends(mem, mem1)
  {
    first, mem1 := PredictionAll(ex, fld, comps, levelG, level, k, mem);
    second, mem2 := PredictionAll(ex, fld, comps, levelG, level, k, mem1);
  }

  /** The Burgers demo's combination as written: `val[0::2]` and `val[1::2]`
      take the parent rows `0, 1, ...` in order, with the even-child sign on
      even row positions and the odd-child sign on odd ones, whatever the
      parity of `i.start`. */
  function BurgersViewRowsAsWritten(earth: seq<seq<real>>, west: seq<seq<real>>, east: seq<seq<real>>, comps: nat, n: nat)
    : (val: seq<seq<real>>)
    requires |earth| == |west| == |east| && Rows(earth, comps) && Rows(west, comps) && Rows(east, comps)
    requires (n + 1) / 2 <= |earth|
    ensures |val| == n
    ensures forall q :: 0 <= q < n ==>
      val[q] == StencilRow(earth[q / 2], west[q / 2], east[q / 2], if q % 2 == 0 then 1.0 else -1.0)
  {
    seq(n, q requires 0 <= q < n => StencilRow(earth[q / 2], west[q / 2], east[q / 2], if q % 2 == 0 then 1.0 else -1.0))
  }

  /** Both components hold the cell averages of the profile `2x + 1` at
      level 0, halving in slope at each finer level. */
  function LinearProfile(item: nat, level: nat, x: int): real
  {
    LinearAverage(0.0, 1.0, level, x)
  }

  /** The prediction on `[1, 2)` at level 1 above a complete level 0 of the
      linear profile: 1.5 in both components, the profile's own average. */
  lemma CounterexamplePredicted()
    ensures PredictRow(OnlyCoarsest, LinearProfile, 2, 0, 1, 1) == [1.5, 1.5]
    ensures PredictAll(OnlyCoarsest, LinearProfile, 2, 0, 1, StridedInterval(1, 2, 1)) == [[1.5, 1.5]]
    ensures LinearProfile(0, 1, 1) == 1.5
  {
    assert LinearProfile(0, 0, 0) == LinearProfile(1, 0, 0) == 1.0;
    assert LinearProfile(0, 0, -1) == LinearProfile(1, 0, -1) == -1.0;
    assert LinearProfile(0, 0, 1) == LinearProfile(1, 0, 1) == 3.0;
    assert LinearProfile(0, 1, 1) == 1.5 by { assert Slope(1.0, 1) == 0.5; }
    assert PredictAt(OnlyCoarsest, LinearProfile, 0, 0, 1, 1) == 1.5;
    assert PredictAt(OnlyCoarsest, LinearProfile, 1, 0, 1, 1) == 1.5;
    var p := PredictRow(OnlyCoarsest, LinearProfile, 2, 0, 1, 1);
    assert p[0] == 1.5 && p[1] == 1.5;
    assert Grounded(OnlyCoarsest, 0);
    var all := PredictAll(OnlyCoarsest, LinearProfile, 2, 0, 1, StridedInterval(1, 2, 1));
    assert |all| == 1 && all[0] == p;
  }

  /** On `i = [1, 2)` at level 1 above a complete level 0, with a linear
      field, the parents `i / 2 = [0, 1)`, `[-1, 0)` and `[1, 2)` hold 1, -1
      and 3 in both components.  The Burgers combination as written gives
      0.5 in the one missing cell, while the prediction (and the field
      itself) is 1.5: coordinate 1 is odd but sits at row position 0. */
  lemma BurgersParityCounterexample()
    ensures var i, ig := StridedInterval(1, 2, 1), StridedInterval(0, 1, 1);
      && ig == StridedInterval(i.start / 2, i.end / 2, 1) == ShiftRight(i)
      && StoredRow(LinearProfile, 2, 0, 0) == [1.0, 1.0]
      && StoredRow(LinearProfile, 2, 0, -1) == [-1.0, -1.0]
      && StoredRow(LinearProfile, 2, 0, 1) == [3.0, 3.0]
      && BurgersViewRowsAsWritten([[1.0, 1.0]], [[-1.0, -1.0]], [[3.0, 3.0]], 2, 1)[0] == [0.5, 0.5]
      && PredictAll(OnlyCoarsest, LinearProfile, 2, 0, 1, i) == [[1.5, 1.5]]
  {
    assert LinearProfile(0, 0, 0) == LinearProfile(1, 0, 0) == 1.0;
    assert LinearProfile(0, 0, -1) == LinearProfile(1, 0, -1) == -1.0;
    assert LinearProfile(0, 0, 1) == LinearProfile(1, 0, 1) == 3.0;
    var e := StoredRow(LinearProfile, 2, 0, 0);
    assert e[0] == 1.0 && e[1] == 1.0;
    var w := StoredRow(LinearProfile, 2, 0, -1);
    assert w[0] == -1.0 && w[1] == -1.0;
    var o := StoredRow(LinearProfile, 2, 0, 1);
    assert o[0] == 3.0 && o[1] == 3.0;
    var v := StencilRow([1.0, 1.0], [-1.0, -1.0], [3.0, 3.0], 1.0);
    assert v[0] == 0.5 && v[1] == 0.5;
    CounterexamplePredicted();
  }
}
