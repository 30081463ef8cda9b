/** What the predictions read from the mesh and the field, and the
    prediction operator itself, defined one coordinate at a time.

    A missing cell `x` at level `l` is predicted from its parent `x / 2` at
    level `l - 1` and the parent's two neighbours, with the third-order
    stencil `parent - 1/8 * sign(x) * (right - left)`, where the sign is +1
    for an even `x` and -1 for an odd one; a cell that exists keeps its
    stored value. */
module Multiresolution {

  /** `mesh.exists(level, x)`: is cell `x` present at `level`? */
  type Existence = (nat, int) -> bool

  /** `f(item, level, {x, x + 1})[0]`: the stored value of component `item`
      in cell `x` at `level`. */
  type Field = (nat, nat, int) -> real

  /** The coefficient `1./8` of the prediction stencil. */
  const Eighth: real := 0.125

  /** Every cell exists at the coarsest level the prediction may reach, so
      the recursion towards coarser levels stops there. */
  ghost predicate Grounded(ex: Existence, levelG: nat)
  {
    forall x :: ex(levelG, x)
  }

  /** The prediction stencil `parent - 1./8 * sign * (right - left)`.  Where
      both neighbours agree the child takes the parent's value. */
  function Interpolate(parent: real, sign: real, right: real, left: real): (child: real)
    ensures right == left ==> child == parent
  {
    parent - Eighth * sign * (right - left)
  }

  /** The two children of one parent, predicted with opposite signs,
      average to the parent's value: the prediction conserves the mean. */
  lemma SiblingsAverageToParent(parent: real, right: real, left: real)
    ensures (Interpolate(parent, 1.0, right, left) + Interpolate(parent, -1.0, right, left)) / 2.0 == parent
  {
  }

  /** The stencil sign of coordinate `x`: -1 when `x` is odd, +1 when even. */
  function ParitySign(x: int): (s: real)
    ensures s == 1.0 || s == -1.0
    ensures s == 1.0 <==> x % 2 == 0
  {
    if x % 2 == 0 then 1.0 else -1.0
  }

  /** The prediction of cell `x` at level `levelG + level`, by recursion on
      the coarser levels down to `levelG`. */
  function PredictAt(ex: Existence, fld: Field, item: nat, levelG: nat, level: nat, x: int): (v: real)
    requires Grounded(ex, levelG)
    ensures ex(levelG + level, x) ==> v == fld(item, levelG + level, x)
    decreases level
  {
    var lvl := levelG + level;
    if level == 0 || ex(lvl, x) then fld(item, lvl, x)
    else
      var p := x / 2;
      Interpolate(PredictAt(ex, fld, item, levelG, level - 1, p), ParitySign(x),
        PredictAt(ex, fld, item, levelG, level - 1, p + 1), PredictAt(ex, fld, item, levelG, level - 1, p - 1))
  }

  /** The gradient of a linear profile measured in cell widths of `level`:
      `c` at level 0, halved at each finer level. */
  function Slope(c: real, level: nat): real
  {
    if level == 0 then c else Slope(c, level - 1) / 2.0
  }

  /** Component `item` of the field is the cell average of one linear
      profile at every level: `b + Slope(c, l) * (2x + 1)` in cell `x`. */
  ghost predicate Linear(fld: Field, item: nat, b: real, c: real)
  {
    forall l: nat, x: int :: fld(item, l, x) == LinearAverage(b, c, l, x)
  }

  function LinearAverage(b: real, c: real, level: nat, x: int): real
  {
    b + Slope(c, level) * (2 * x + 1) as real
  }

  lemma StencilOnLinear(b: real, c: real, level: nat, x: int)
    requires level > 0
    ensures var p := x / 2;
      Interpolate(LinearAverage(b, c, level - 1, p), ParitySign(x),
        LinearAverage(b, c, level - 1, p + 1), LinearAverage(b, c, level - 1, p - 1))
      == LinearAverage(b, c, level, x)
  {
    var sp := Slope(c, level - 1);
    var pr := (2 * (x / 2) + 1) as real;
    assert (2 * (x / 2 + 1) + 1) as real == pr + 2.0;
    assert (2 * (x / 2 - 1) + 1) as real == pr - 2.0;
    assert LinearAverage(b, c, level - 1, x / 2 + 1) - LinearAverage(b, c, level - 1, x / 2 - 1) == 4.0 * sp;
    if x % 2 == 0 {
      assert (2 * x + 1) as real == 2.0 * pr - 1.0;
    } else {
      assert (2 * x + 1) as real == 2.0 * pr + 1.0;
    }
  }

  /** The prediction reproduces linear fields exactly: every cell, present
      or not, is predicted to hold the linear profile's average. */
  lemma {:induction false} LinearFieldsReproduced(ex: Existence, fld: Field, item: nat, levelG: nat, level: nat, x: int, b: real, c: real)
    requires Grounded(ex, levelG) && Linear(fld, item, b, c)
    ensures PredictAt(ex, fld, item, levelG, level, x) == fld(item, levelG + level, x)
    decreases level
  {
    var lvl := levelG + level;
    if level > 0 && !ex(lvl, x) {
      var p := x / 2;
      LinearFieldsReproduced(ex, fld, item, levelG, level - 1, p, b, c);
      LinearFieldsReproduced(ex, fld, item, levelG, level - 1, p + 1, b, c);
      LinearFieldsReproduced(ex, fld, item, levelG, level - 1, p - 1, b, c);
      assert fld(item, lvl - 1, p) == LinearAverage(b, c, lvl - 1, p);
      assert fld(item, lvl - 1, p + 1) == LinearAverage(b, c, lvl - 1, p + 1);
      assert fld(item, lvl - 1, p - 1) == LinearAverage(b, c, lvl - 1, p - 1);
      assert fld(item, lvl, x) == LinearAverage(b, c, lvl, x);
      StencilOnLinear(b, c, lvl, x);
    }
  }
}
