/** The cells present at one refinement level (`LevelCellArray`), taken in
    one dimension: a run of sorted, non-overlapping, valid intervals.  Only
    what the mesh needs of it is modelled: `empty()`, `nb_cells()` and the
    cell-by-cell traversal `for_each_cell(func, level)`. */
module LevelCells {
  import opened Intervals

  /** A cell handed to a traversal callback: its level and coordinate. */
  datatype Cell = Cell(level: nat, x: int)

  datatype LevelCellArray = LevelCellArray(intervals: seq<Interval>)
  {
    /** Every interval is valid, and they are sorted and do not overlap. */
    predicate Valid()
    {
      && (forall k :: 0 <= k < |intervals| ==> intervals[k].IsValid())
      && (forall k :: 0 <= k < |intervals| - 1 ==> intervals[k].end <= intervals[k + 1].start)
    }

    /** `empty()`: no interval at all. */
    predicate Empty()
    {
      |intervals| == 0
    }

    /** The coordinate `x` is present at this level. */
    predicate Covers(x: int)
    {
      exists k :: 0 <= k < |intervals| && intervals[k].Contains(x)
    }

    /** `nb_cells()`: the sum of the interval sizes. */
    function NbCells(): (n: nat)
      requires Valid()
      ensures n == 0 <==> Empty()
    {
      SizeSum(intervals)
    }

    /** `for_each_cell(func, level)`: the cells handed to `func`, interval
        by interval in increasing order, each tagged with `level`. */
    function Cells(level: nat): (cs: seq<Cell>)
      requires Valid()
    {
      CellsOf(intervals, level)
    }
  }

  /** Sum of the sizes of a run of valid intervals. */
  function SizeSum(ivs: seq<Interval>): (n: nat)
    requires forall k :: 0 <= k < |ivs| ==> ivs[k].IsValid()
    ensures n == 0 <==> |ivs| == 0
  {
    if |ivs| == 0 then 0 else SizeSum(ivs[..|ivs| - 1]) + ivs[|ivs| - 1].Size()
  }

  /** The cells of one interval, in increasing coordinate order. */
  function IntervalCells(iv: Interval, level: nat): (cs: seq<Cell>)
    requires iv.IsValid()
  {
    seq(iv.Size(), k requires 0 <= k < iv.Size() => Cell(level, iv.start + k))
  }

  function CellsOf(ivs: seq<Interval>, level: nat): seq<Cell>
    requires forall k :: 0 <= k < |ivs| ==> ivs[k].IsValid()
  {
    if |ivs| == 0 then [] else CellsOf(ivs[..|ivs| - 1], level) + IntervalCells(ivs[|ivs| - 1], level)
  }

  /** The traversal of a level visits exactly `nb_cells()` cells. */
  lemma {:induction false} CellsCount(lca: LevelCellArray, level: nat)
    requires lca.Valid()
    ensures |lca.Cells(level)| == lca.NbCells()
  {
    CellsOfCount(lca.intervals, level);
  }

  lemma {:induction false} CellsOfCount(ivs: seq<Interval>, level: nat)
    requires forall k :: 0 <= k < |ivs| ==> ivs[k].IsValid()
    ensures |CellsOf(ivs, level)| == SizeSum(ivs)
  {
    if |ivs| > 0 {
      CellsOfCount(ivs[..|ivs| - 1], level);
    }
  }

  /** The traversal of a level visits the cells present at that level and
      nothing else, every one tagged with the level it was called with. */
  lemma {:induction false} CellsMembership(lca: LevelCellArray, level: nat, c: Cell)
    requires lca.Valid()
    ensures c in lca.Cells(level) <==> c.level == level && lca.Covers(c.x)
  {
    CellsOfMembership(lca.intervals, level, c);
  }

  lemma {:induction false} CellsOfMembership(ivs: seq<Interval>, level: nat, c: Cell)
    requires forall k :: 0 <= k < |ivs| ==> ivs[k].IsValid()
    ensures c in CellsOf(ivs, level) <==>
      c.level == level && exists k :: 0 <= k < |ivs| && ivs[k].Contains(c.x)
  {
    if |ivs| > 0 {
      var front, last := ivs[..|ivs| - 1], ivs[|ivs| - 1];
      CellsOfMembership(front, level, c);
      var lastCells := IntervalCells(last, level);
      assert c in lastCells <==> c.level == level && last.Contains(c.x) by {
        if c.level == level && last.Contains(c.x) {
          assert lastCells[c.x - last.start] == c;
        }
      }
      if c.level == level && (exists k :: 0 <= k < |ivs| && ivs[k].Contains(c.x)) {
        var k :| 0 <= k < |ivs| && ivs[k].Contains(c.x);
        if k < |ivs| - 1 {
          assert front[k] == ivs[k];
        }
      }
    }
  }

  /** Within one level the traversal visits coordinates in strictly
      increasing order. */
  lemma {:induction false} CellsIncreasing(lca: LevelCellArray, level: nat)
    requires lca.Valid()
    ensures forall a, b :: 0 <= a < b < |lca.Cells(level)| ==> lca.Cells(level)[a].x < lca.Cells(level)[b].x
  {
    CellsOfIncreasing(lca.intervals, level);
  }

  lemma {:induction false} CellsOfIncreasing(ivs: seq<Interval>, level: nat)
    requires forall k :: 0 <= k < |ivs| ==> ivs[k].IsValid()
    requires forall k :: 0 <= k < |ivs| - 1 ==> ivs[k].end <= ivs[k + 1].start
    ensures forall a, b :: 0 <= a < b < |CellsOf(ivs, level)| ==> CellsOf(ivs, level)[a].x < CellsOf(ivs, level)[b].x
    ensures |ivs| > 0 ==> forall a :: 0 <= a < |CellsOf(ivs, level)| ==> CellsOf(ivs, level)[a].x < ivs[|ivs| - 1].end
  {
    if |ivs| > 0 {
      var front, last := ivs[..|ivs| - 1], ivs[|ivs| - 1];
      CellsOfIncreasing(front, level);
      var cs, fs, ls := CellsOf(ivs, level), CellsOf(front, level), IntervalCells(last, level);
      assert cs == fs + ls;
      assert forall a :: 0 <= a < |fs| ==> fs[a].x < last.start by {
        if |front| > 0 {
          assert front[|front| - 1].end <= last.start;
        }
      }
    }
  }
}
