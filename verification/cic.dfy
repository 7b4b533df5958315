/** The integer part of cloud-in-cell deposition (`CIC_Cells`, `CIC_Cells_Fracs`): which
    cells a particle's cloud touches. The positions, `floor` and the weights are floating
    point and stay outside the model; the cells they give are parameters. */
module Cic {
  import opened Seqs
  import opened Boxes
  import Classify

  /** The cell one step down on axis `d`. */
  function Dec(c: Cell, d: nat): (r: Cell)
    requires d < |c|
    ensures |r| == |c| && r[d] == c[d] - 1
    ensures forall e :: 0 <= e < |c| && e != d ==> r[e] == c[e]
  {
    c[d := c[d] - 1]
  }

  /** The low corner of the 2^D block whose high corner is `h`. */
  function Lower(h: Cell): (r: Cell)
    ensures |r| == |h| && forall d :: 0 <= d < |h| ==> r[d] == h[d] - 1
  {
    seq(|h|, d requires 0 <= d < |h| => h[d] - 1)
  }

  /** `CIC_Cells`: the 2^D cells around the high cell `hicell`, in the order the source
      writes them (high corner first; in 2D HH, LH, LL, HL; in 3D the same four with the
      high z, then the four with the low z). */
  function CICCells(hicell: Cell): (r: seq<Cell>)
    requires 1 <= |hicell| <= 3
    ensures |r| == Classify.Pow2(|hicell|)
    ensures forall k :: 0 <= k < |r| ==> |r[k]| == |hicell|
    ensures |hicell| == 3 ==> forall k :: 0 <= k < 8 ==> r[k][2] == if k < 4 then hicell[2] else hicell[2] - 1
  {
    var h := hicell;
    if |h| == 1 then
      [h, Dec(h, 0)]
    else if |h| == 2 then
      [h, Dec(h, 0), Dec(Dec(h, 0), 1), Dec(h, 1)]
    else
      var l := Dec(h, 2);
      [h, Dec(h, 0), Dec(Dec(h, 0), 1), Dec(h, 1),
       l, Dec(l, 0), Dec(Dec(l, 0), 1), Dec(l, 1)]
  }

  /** A cell of the block `{h-1, h}^D`: on every axis either `h` or one below. */
  predicate CornerOf(h: Cell, c: Cell) {
    |c| == |h| && forall d :: 0 <= d < |h| ==> c[d] == h[d] || c[d] == h[d] - 1
  }

  /** The stencil is exactly the 2^D block `{h-1, h}^D`, each cell once. */
  lemma CICCellsBlock(hicell: Cell, c: Cell)
    requires 1 <= |hicell| <= 3
    ensures Distinct(CICCells(hicell))
    ensures c in CICCells(hicell) <==> Contains(Box(Lower(hicell), hicell), c)
  {
    var h := hicell;
    var r := CICCells(h);
    assert Contains(Box(Lower(h), h), c) <==> CornerOf(h, c);
    forall i, j | 0 <= i < j < |r|
      ensures r[i] != r[j]
    {
      if |h| == 1 {
        assert r[i][0] != r[j][0];
      } else if |h| == 2 {
        assert r[i][0] != r[j][0] || r[i][1] != r[j][1];
      } else {
        assert r[i][0] != r[j][0] || r[i][1] != r[j][1] || r[i][2] != r[j][2];
      }
    }
    if CornerOf(h, c) {
      CornerIn(h, c);
    }
  }

  lemma CornerIn(h: Cell, c: Cell)
    requires 1 <= |h| <= 3 && CornerOf(h, c)
    ensures c in CICCells(h)
  {
    var r := CICCells(h);
    var x := if c[0] == h[0] then 0 else 1;
    if |h| == 1 {
      assert c == r[x];
    } else {
      var y := if c[1] == h[1] then 0 else 1;
      // HH, LH, LL, HL
      var k := if y == 0 then x else 3 - x;
      if |h| == 2 {
        assert c == r[k];
      } else {
        var z := if c[2] == h[2] then 0 else 4;
        assert c == r[z + k];
      }
    }
  }

  // ---------------------------------------------------------------------------
  // CIC_Cells_Fracs: the cells of the cloud
  // ---------------------------------------------------------------------------

  lemma RowsAppend(x0: int, x1: int, a: seq<Cell>, b: seq<Cell>)
    ensures Rows(x0, x1, a + b) == Rows(x0, x1, a) + Rows(x0, x1, b)
  {
    if |a| == 0 {
      assert a + b == b;
    } else {
      assert (a + b)[0] == a[0] && (a + b)[1..] == a[1..] + b;
      RowsAppend(x0, x1, a[1..], b);
      AppendAssoc(Row(x0, x1, a[0]), Rows(x0, x1, a[1..]), Rows(x0, x1, b));
    }
  }

  lemma RowsOne(x0: int, x1: int, t: Cell)
    ensures Rows(x0, x1, [t]) == Row(x0, x1, t)
  {
    assert [t][1..] == [];
  }

  /** One more cell at the end of a row. */
  lemma RowSnoc(x0: int, x: int, t: Cell)
    requires x0 <= x
    ensures Row(x0, x, t) == Row(x0, x - 1, t) + [[x] + t]
  {
  }

  /** One more row at the end of the rows over a growing second axis. */
  lemma RowsSnoc(x0: int, x1: int, y0: int, y: int, t: Cell)
    requires y0 <= y
    ensures Rows(x0, x1, Row(y0, y, t)) == Rows(x0, x1, Row(y0, y - 1, t)) + Row(x0, x1, [y] + t)
  {
    RowSnoc(y0, y, t);
    RowsAppend(x0, x1, Row(y0, y - 1, t), [[y] + t]);
    RowsOne(x0, x1, [y] + t);
  }

  /** One more plane at the end of the planes over a growing third axis. */
  lemma PlanesSnoc(x0: int, x1: int, y0: int, y1: int, z0: int, z: int)
    requires z0 <= z
    ensures Rows(x0, x1, Rows(y0, y1, Row(z0, z, [])))
      == Rows(x0, x1, Rows(y0, y1, Row(z0, z - 1, []))) + Rows(x0, x1, Row(y0, y1, [z]))
  {
    RowsSnoc(y0, y1, z0, z, []);
    RowsAppend(x0, x1, Rows(y0, y1, Row(z0, z - 1, [])), Row(y0, y1, [z] + []));
    assert [z] + [] == [z];
  }

  lemma CellsUnfold(lo: Cell, hi: Cell)
    requires |lo| == |hi| >= 1
    ensures Cells(lo, hi) == Rows(lo[0], hi[0], Cells(lo[1..], hi[1..]))
    ensures |lo| == 1 ==> Cells(lo, hi) == Row(lo[0], hi[0], [])
  {
    if |lo| == 1 {
      assert lo[1..] == [] && hi[1..] == [];
      RowsOne(lo[0], hi[0], []);
    }
  }

  /** A block whose low corner does not pass its high corner (the source's `floor` of the
      lower edge never exceeds that of the upper edge). */
  predicate Ordered(lo: Cell, hi: Cell) {
    |lo| == |hi| && forall d :: 0 <= d < |lo| ==> lo[d] <= hi[d]
  }

  /** The innermost `xi` loop: the cells `[xi] + t` for `xi` from `x0` to `x1`, written
      at the next free positions. */
  method AppendRow(cells: seq<Cell>, x0: int, x1: int, t: Cell) returns (r: seq<Cell>)
    requires x0 <= x1 + 1
    ensures r == cells + Row(x0, x1, t)
  {
    r := cells;
    for xi := x0 to x1 + 1
      invariant r == cells + Row(x0, xi - 1, t)
    {
      RowSnoc(x0, xi, t);
      AppendAssoc(cells, Row(x0, xi - 1, t), [[xi] + t]);
      r := r + [[xi] + t];
    }
  }

  /** The 1D loop over `xi`. */
  method Cloud1(lo: Cell, hi: Cell) returns (cells: seq<Cell>)
    requires |lo| == |hi| == 1 && Ordered(lo, hi)
    ensures cells == Cells(lo, hi)
  {
    cells := AppendRow([], lo[0], hi[0], []);
    CellsUnfold(lo, hi);
  }

  /** The 2D loops: `yi` outer, `xi` inner. */
  method Cloud2(lo: Cell, hi: Cell) returns (cells: seq<Cell>)
    requires |lo| == |hi| == 2 && Ordered(lo, hi)
    ensures cells == Cells(lo, hi)
  {
    cells := [];
    for yi := lo[1] to hi[1] + 1
      invariant cells == Rows(lo[0], hi[0], Row(lo[1], yi - 1, []))
    {
      cells := AppendRow(cells, lo[0], hi[0], [yi]);
      RowsSnoc(lo[0], hi[0], lo[1], yi, []);
      assert [yi] + [] == [yi];
    }
    CellsUnfold(lo, hi);
    CellsUnfold(lo[1..], hi[1..]);
  }

  /** The 3D loops: `zi` outer, then `yi`, `xi` innermost. */
  method Cloud3(lo: Cell, hi: Cell) returns (cells: seq<Cell>)
    requires |lo| == |hi| == 3 && Ordered(lo, hi)
    ensures cells == Cells(lo, hi)
  {
    cells := [];
    for zi := lo[2] to hi[2] + 1
      invariant cells == Rows(lo[0], hi[0], Rows(lo[1], hi[1], Row(lo[2], zi - 1, [])))
    {
      ghost var planes := cells;
      for yi := lo[1] to hi[1] + 1
        invariant cells == planes + Rows(lo[0], hi[0], Row(lo[1], yi - 1, [zi]))
      {
        ghost var done := cells;
        cells := AppendRow(cells, lo[0], hi[0], [yi, zi]);
        RowsSnoc(lo[0], hi[0], lo[1], yi, [zi]);
        assert [yi] + [zi] == [yi, zi];
        AppendAssoc(planes, Rows(lo[0], hi[0], Row(lo[1], yi - 1, [zi])), Row(lo[0], hi[0], [yi, zi]));
      }
      PlanesSnoc(lo[0], hi[0], lo[1], hi[1], lo[2], zi);
    }
    CellsUnfold(lo, hi);
    CellsUnfold(lo[1..], hi[1..]);
    CellsUnfold(lo[2..], hi[2..]);
    assert lo[1..][0] == lo[1] && hi[1..][0] == hi[1] && lo[1..][1..] == lo[2..] && hi[1..][1..] == hi[2..];
  }

  /** `M` in the general case: the product over axes of `hicell - locell + 1`. */
  function CloudCount(lo: Cell, hi: Cell): (m: int)
    requires |lo| == |hi|
    decreases |lo|
  {
    if |lo| == 0 then 1 else (hi[0] - lo[0] + 1) * CloudCount(lo[1..], hi[1..])
  }

  lemma {:induction false} CloudCountVolume(lo: Cell, hi: Cell)
    requires Ordered(lo, hi)
    ensures CloudCount(lo, hi) == Volume(lo, hi)
    decreases |lo|
  {
    if |lo| > 0 {
      CloudCountVolume(lo[1..], hi[1..]);
    }
  }

  /** `CIC_Cells_Fracs`, cell part. With equal particle and mesh spacing it takes the
      `CIC_Cells` stencil around `cell` and returns `M = 2^D`; otherwise it enumerates the
      block from `locell` to `hicell`, first axis fastest, and returns the block's size. */
  method CICCellsFracs(sameDx: bool, cell: Cell, locell: Cell, hicell: Cell)
    returns (m: int, cells: seq<Cell>)
    requires 1 <= |cell| <= 3 && |locell| == |hicell| == |cell|
    requires !sameDx ==> Ordered(locell, hicell)
    ensures m == |cells|
    ensures sameDx ==> m == Classify.Pow2(|cell|) && cells == CICCells(cell)
    ensures !sameDx ==> m == Volume(locell, hicell) && cells == Cells(locell, hicell)
    ensures !sameDx ==> Distinct(cells)
    ensures !sameDx ==> forall k :: 0 <= k < |cells| ==> Contains(Box(locell, hicell), cells[k])
  {
    if sameDx {
      m := Classify.Pow2(|cell|);
      cells := CICCells(cell);
      return;
    }
    m := CloudCount(locell, hicell);
    CloudCountVolume(locell, hicell);
    if |cell| == 1 {
      cells := Cloud1(locell, hicell);
    } else if |cell| == 2 {
      cells := Cloud2(locell, hicell);
    } else {
      cells := Cloud3(locell, hicell);
    }
    CellsLength(locell, hicell);
    CellsDistinct(locell, hicell);
    forall k | 0 <= k < |cells|
      ensures Contains(Box(locell, hicell), cells[k])
    {
      CellsMember(locell, hicell, cells[k]);
    }
  }

  /** With equal spacing the general enumeration would visit the same cells as the
      stencil: the block from `cell - 1` to `cell`. */
  lemma StencilIsUnitCloud(hicell: Cell, c: Cell)
    requires 1 <= |hicell| <= 3
    ensures c in CICCells(hicell) <==> c in Cells(Lower(hicell), hicell)
    ensures |CICCells(hicell)| == |Cells(Lower(hicell), hicell)|
  {
    CICCellsBlock(hicell, c);
    CellsMember(Lower(hicell), hicell, c);
    CellsLength(Lower(hicell), hicell);
    UnitVolume(Lower(hicell), hicell);
  }

  lemma {:induction false} UnitVolume(lo: Cell, hi: Cell)
    requires |lo| == |hi| && forall d :: 0 <= d < |lo| ==> lo[d] == hi[d] - 1
    ensures Volume(lo, hi) == Classify.Pow2(|lo|)
    decreases |lo|
  {
    if |lo| > 0 {
      UnitVolume(lo[1..], hi[1..]);
    }
  }
}
