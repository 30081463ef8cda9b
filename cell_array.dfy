/** The whole adaptive mesh (`CellArray`): a fixed array of per-level cell
    sets indexed `0..max_refinement_level`, with whole-mesh queries and the
    level-by-level traversals.  A traversal callback is modelled by the
    sequence of arguments it receives. */
module CellArrays {
  import opened LevelCells

  /** `nb_cells()` over a run of levels: the sum of the per-level counts. */
  function TotalCells(levels: seq<LevelCellArray>): nat
    requires forall l :: 0 <= l < |levels| ==> levels[l].Valid()
  {
    if |levels| == 0 then 0 else TotalCells(levels[..|levels| - 1]) + levels[|levels| - 1].NbCells()
  }

  /** The cells `for_each_cell` hands to its callback: level after level,
      each level's own traversal tagged with that level's index. */
  function Traversal(levels: seq<LevelCellArray>): seq<Cell>
    requires forall l :: 0 <= l < |levels| ==> levels[l].Valid()
  {
    if |levels| == 0 then []
    else Traversal(levels[..|levels| - 1]) + levels[|levels| - 1].Cells(|levels| - 1)
  }

  /** Summing `nb_cells()` over the levels counts every cell the traversal
      visits exactly once. */
  lemma {:induction false} TraversalCount(levels: seq<LevelCellArray>)
    requires forall l :: 0 <= l < |levels| ==> levels[l].Valid()
    ensures |Traversal(levels)| == TotalCells(levels)
  {
    if |levels| > 0 {
      TraversalCount(levels[..|levels| - 1]);
      CellsCount(levels[|levels| - 1], |levels| - 1);
    }
  }

  /** The traversal visits the cell `(l, x)` exactly when `x` is present at
      level `l` of the mesh. */
  lemma {:induction false} TraversalMembership(levels: seq<LevelCellArray>, c: Cell)
    requires forall l :: 0 <= l < |levels| ==> levels[l].Valid()
    ensures c in Traversal(levels) <==> c.level < |levels| && levels[c.level].Covers(c.x)
  {
    if |levels| > 0 {
      var front := levels[..|levels| - 1];
      TraversalMembership(front, c);
      CellsMembership(levels[|levels| - 1], |levels| - 1, c);
      if c.level < |levels| - 1 {
        assert front[c.level] == levels[c.level];
      }
    }
  }

  /** Levels are visited in increasing order. */
  lemma {:induction false} TraversalLevelOrder(levels: seq<LevelCellArray>)
    requires forall l :: 0 <= l < |levels| ==> levels[l].Valid()
    ensures forall a, b :: 0 <= a < b < |Traversal(levels)| ==> Traversal(levels)[a].level <= Traversal(levels)[b].level
    ensures forall a :: 0 <= a < |Traversal(levels)| ==> Traversal(levels)[a].level < |levels|
  {
    if |levels| > 0 {
      var n := |levels| - 1;
      TraversalLevelOrder(levels[..n]);
      var t, front, last := Traversal(levels), Traversal(levels[..n]), levels[n].Cells(n);
      assert t == front + last;
      forall a | 0 <= a < |last|
        ensures last[a].level == n
      {
        CellsMembership(levels[n], n, last[a]);
      }
    }
  }

  /** `std::size_t` arithmetic wraps modulo 2^64. */
  const SizeTModulus: nat := 0x1_0000_0000_0000_0000

  /** How the loop of `max_level()` as written ends: by returning a level,
      or by reading `m_cells[probe]` beyond the last level. */
  datatype ScanOutcome = Returned(level: nat) | ReadsPastEnd(probe: nat)

  /** The loop of `max_level()` as written, from the iteration at `level`
      on: the counter is a `std::size_t`, so the guard `level >= 0` always
      holds and `--level` at 0 wraps to 2^64 - 1. */
  function MaxLevelAsWritten(levels: seq<LevelCellArray>, level: nat): (r: ScanOutcome)
    requires |levels| < SizeTModulus && level < SizeTModulus
    ensures r.Returned? ==> r.level <= level && r.level < |levels| && !levels[r.level].Empty()
    ensures r.Returned? ==> forall l :: r.level < l <= level && l < |levels| ==> levels[l].Empty()
    ensures r.ReadsPastEnd? ==> |levels| <= r.probe < SizeTModulus
    decreases if level < |levels| then level + 1 else 0
  {
    if |levels| <= level then ReadsPastEnd(level)
    else if !levels[level].Empty() then Returned(level)
    else MaxLevelAsWritten(levels, (level + SizeTModulus - 1) % SizeTModulus)
  }

  /** On a mesh whose levels are all empty the loop as written never
      reaches `return 0`: it wraps past level 0 and reads `m_cells` at
      index 2^64 - 1. */
  lemma {:induction false} AllEmptyScanReadsPastEnd(levels: seq<LevelCellArray>)
    requires 0 < |levels| < SizeTModulus
    requires forall l :: 0 <= l < |levels| ==> levels[l].Empty()
    ensures MaxLevelAsWritten(levels, |levels| - 1) == ReadsPastEnd(SizeTModulus - 1)
  {
    EmptyBelowReadsPastEnd(levels, |levels| - 1);
  }

  lemma {:induction false} EmptyBelowReadsPastEnd(levels: seq<LevelCellArray>, level: nat)
    requires level < |levels| < SizeTModulus
    requires forall l :: 0 <= l <= level ==> levels[l].Empty()
    ensures MaxLevelAsWritten(levels, level) == ReadsPastEnd(SizeTModulus - 1)
  {
    if level > 0 {
      EmptyBelowReadsPastEnd(levels, level - 1);
    }
  }

  /** When some level is non-empty the loop as written does end, at the
      highest non-empty level: the defect shows only on an empty mesh. */
  lemma {:induction false} NonEmptyScanReturnsHighest(levels: seq<LevelCellArray>, level: nat)
    requires level < |levels| < SizeTModulus
    requires exists l :: 0 <= l <= level && !levels[l].Empty()
    ensures MaxLevelAsWritten(levels, level).Returned?
    ensures var r := MaxLevelAsWritten(levels, level).level;
      r <= level && !levels[r].Empty() && forall l :: r < l <= level ==> levels[l].Empty()
  {
    if levels[level].Empty() {
      assert level > 0;
      NonEmptyScanReturnsHighest(levels, level - 1);
    }
  }

  class CellArray {
    const maxRefinementLevel: nat
    /** `m_cells`: one cell set per level `0..max_refinement_level`. */
    const cells: array<LevelCellArray>

    ghost predicate Valid()
      reads cells
    {
      && cells.Length == maxRefinementLevel + 1
      && forall l :: 0 <= l < cells.Length ==> cells[l].Valid()
    }

    /** `CellArray(dcl)`: level `l` receives the cell list's level `l`. */
    constructor (maxRefinementLevel: nat, dcl: seq<LevelCellArray>)
      requires |dcl| == maxRefinementLevel + 1
      requires forall l :: 0 <= l < |dcl| ==> dcl[l].Valid()
      ensures Valid() && fresh(cells)
      ensures this.maxRefinementLevel == maxRefinementLevel
      ensures forall l :: 0 <= l <= maxRefinementLevel ==> cells[l] == dcl[l]
    {
      this.maxRefinementLevel := maxRefinementLevel;
      var a := new LevelCellArray[maxRefinementLevel + 1];
      for level := 0 to maxRefinementLevel + 1
        invariant forall l :: 0 <= l < level ==> a[l] == dcl[l]
      {
        a[level] := dcl[level];
      }
      cells := a;
    }

    /** `CellArray()` with the default, empty cell list. */
    constructor Empty(maxRefinementLevel: nat)
      ensures Valid() && fresh(cells)
      ensures this.maxRefinementLevel == maxRefinementLevel
      ensures forall l :: 0 <= l <= maxRefinementLevel ==> cells[l].Empty()
    {
      this.maxRefinementLevel := maxRefinementLevel;
      cells := new LevelCellArray[maxRefinementLevel + 1](_ => LevelCellArray([]));
    }

    /** The const `operator[](l)`: a level of the mesh, itself well formed. */
    function Level(l: nat): (lca: LevelCellArray)
      reads cells
      requires Valid() && l <= maxRefinementLevel
      ensures lca == cells[l] && lca.Valid()
    {
      cells[l]
    }

    /** Writing through the non-const `operator[](l)`: level `l` takes the
        new cell set and every other level keeps its own. */
    method SetLevel(l: nat, lca: LevelCellArray)
      requires Valid() && l <= maxRefinementLevel && lca.Valid()
      modifies cells
      ensures Valid()
      ensures cells[l] == lca
      ensures forall m :: 0 <= m < cells.Length && m != l ==> cells[m] == old(cells[m])
    {
      cells[l] := lca;
    }

    /** `nb_cells()`: accumulates the per-level counts over every level. */
    method NbCells() returns (size: nat)
      requires Valid()
      ensures size == TotalCells(cells[..])
      ensures size == |Traversal(cells[..])|
    {
      size := 0;
      for level := 0 to cells.Length
        invariant size == TotalCells(cells[..level])
      {
        assert cells[..level + 1][..level] == cells[..level];
        size := size + cells[level].NbCells();
      }
      assert cells[..cells.Length] == cells[..];
      TraversalCount(cells[..]);
    }

    /** `max_level()`, scanning down from the top level with a counter that
        stops at level 0: the highest non-empty level, or 0 when every
        level is empty. */
    method MaxLevel() returns (level: nat)
      requires Valid()
      ensures level <= maxRefinementLevel
      ensures (exists l :: 0 <= l < cells.Length && !cells[l].Empty()) ==>
        !cells[level].Empty() && forall l :: level < l < cells.Length ==> cells[l].Empty()
      ensures (forall l :: 0 <= l < cells.Length ==> cells[l].Empty()) ==> level == 0
    {
      var remaining := cells.Length;
      while remaining > 0
        invariant 0 <= remaining <= cells.Length
        invariant forall l :: remaining <= l < cells.Length ==> cells[l].Empty()
      {
        remaining := remaining - 1;
        if !cells[remaining].Empty() {
          return remaining;
        }
      }
      return 0;
    }

    /** `for_each_cell(func)`: returns the levels on which the per-level
        traversal is invoked, in the order of invocation, and the cells
        handed to `func`, in order. */
    method ForEachCell() returns (calledLevels: seq<nat>, visits: seq<Cell>)
      requires Valid()
      ensures forall l: nat :: l in calledLevels <==> l < cells.Length && !cells[l].Empty()
      ensures forall a, b :: 0 <= a < b < |calledLevels| ==> calledLevels[a] < calledLevels[b]
      ensures visits == Traversal(cells[..])
    {
      calledLevels, visits := [], [];
      for level := 0 to cells.Length
        invariant forall l: nat :: l in calledLevels <==> l < level && !cells[l].Empty()
        invariant forall a :: 0 <= a < |calledLevels| ==> calledLevels[a] < level
        invariant forall a, b :: 0 <= a < b < |calledLevels| ==> calledLevels[a] < calledLevels[b]
        invariant visits == Traversal(cells[..level])
      {
        assert cells[..level + 1][..level] == cells[..level];
        if !cells[level].Empty() {
          calledLevels := calledLevels + [level];
          visits := visits + cells[level].Cells(level);
        }
      }
      assert cells[..cells.Length] == cells[..];
    }

    /** `for_each_cell_on_level(level, func)`: the cells handed to `func`
        are exactly the cells of that level, in increasing order. */
    method ForEachCellOnLevel(level: nat) returns (visits: seq<Cell>)
      requires Valid() && level <= maxRefinementLevel
      ensures forall c :: c in visits <==> c.level == level && cells[level].Covers(c.x)
      ensures |visits| == cells[level].NbCells()
      ensures forall a, b :: 0 <= a < b < |visits| ==> visits[a].x < visits[b].x
    {
      visits := [];
      if !cells[level].Empty() {
        visits := cells[level].Cells(level);
      }
      forall c
        ensures c in visits <==> c.level == level && cells[level].Covers(c.x)
      {
        CellsMembership(cells[level], level, c);
      }
      CellsCount(cells[level], level);
      CellsIncreasing(cells[level], level);
    }
  }
}
