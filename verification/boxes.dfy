/** Integer cells and index boxes (the `IntVect` and `Box` of the framework),
    in any number of dimensions: a cell's length is the space dimension. */
module Boxes {
  import opened Seqs

  type Cell = seq<int>

  /** A box of cells, both corners inclusive. */
  datatype Box = Box(lo: Cell, hi: Cell) {
    ghost predicate Valid() {
      |lo| == |hi|
    }

    function Dim(): nat {
      |lo|
    }
  }

  predicate Contains(b: Box, c: Cell) {
    |c| == |b.lo| == |b.hi| && forall d :: 0 <= d < |c| ==> b.lo[d] <= c[d] <= b.hi[d]
  }

  /** `Box::grow(n)`: every face moves outwards by `n` (inwards for negative `n`). */
  function Grow(b: Box, n: int): (r: Box)
    ensures |r.lo| == |b.lo| && |r.hi| == |b.hi|
    ensures forall d :: 0 <= d < |b.lo| ==> r.lo[d] == b.lo[d] - n
    ensures forall d :: 0 <= d < |b.hi| ==> r.hi[d] == b.hi[d] + n
  {
    Box(seq(|b.lo|, d requires 0 <= d < |b.lo| => b.lo[d] - n),
        seq(|b.hi|, d requires 0 <= d < |b.hi| => b.hi[d] + n))
  }

  function Max(a: int, b: int): int { if a < b then b else a }
  function Min(a: int, b: int): int { if a < b then a else b }

  /** `Box::operator&=`: the cells both boxes contain. */
  function Intersect(a: Box, b: Box): (r: Box)
    requires |a.lo| == |a.hi| == |b.lo| == |b.hi|
    ensures forall c :: Contains(r, c) <==> Contains(a, c) && Contains(b, c)
  {
    Box(seq(|a.lo|, d requires 0 <= d < |a.lo| => Max(a.lo[d], b.lo[d])),
        seq(|a.hi|, d requires 0 <= d < |a.hi| => Min(a.hi[d], b.hi[d])))
  }

  /** The box of a single cell grown by `n`: the cells within `n` of `c` on every axis. */
  function Around(c: Cell, n: nat): (r: Box)
    ensures forall e :: Contains(r, e) <==>
      |e| == |c| && forall d :: 0 <= d < |c| ==> c[d] - n <= e[d] <= c[d] + n
  {
    Grow(Box(c, c), n)
  }

  // ---------------------------------------------------------------------------
  // Visiting the cells of a box, first axis fastest
  // ---------------------------------------------------------------------------

  /** `Box::next`: advance the first axis; on overflow reset it to the low corner and
      carry into the next axis. The last axis is never reset, so stepping past the
      high corner leaves the box. */
  function Next(lo: Cell, hi: Cell, c: Cell): (r: Cell)
    requires |lo| == |hi| == |c| >= 1
    ensures |r| == |c|
    decreases |c|
  {
    if |c| == 1 then [c[0] + 1]
    else if c[0] < hi[0] then [c[0] + 1] + c[1..]
    else [lo[0]] + Next(lo[1..], hi[1..], c[1..])
  }

  /** One row: the cells `[x] + t` for `x` from `x0` to `x1`. */
  function Row(x0: int, x1: int, t: Cell): (r: seq<Cell>)
    ensures |r| == if x0 <= x1 then x1 - x0 + 1 else 0
    ensures forall k :: 0 <= k < |r| ==> r[k] == [x0 + k] + t
  {
    seq(if x0 <= x1 then x1 - x0 + 1 else 0, k => [x0 + k] + t)
  }

  function Rows(x0: int, x1: int, ts: seq<Cell>): seq<Cell>
  {
    if |ts| == 0 then [] else Row(x0, x1, ts[0]) + Rows(x0, x1, ts[1..])
  }

  /** The cells of the box spanned by `lo` and `hi`, first axis fastest. */
  function Cells(lo: Cell, hi: Cell): seq<Cell>
    requires |lo| == |hi|
    decreases |lo|
  {
    if |lo| == 0 then [[]] else Rows(lo[0], hi[0], Cells(lo[1..], hi[1..]))
  }

  function BoxCells(b: Box): seq<Cell>
    requires b.Valid()
  {
    Cells(b.lo, b.hi)
  }

  function Extent(lo: int, hi: int): nat {
    if lo <= hi then hi - lo + 1 else 0
  }

  /** Number of cells of a box: the product of its extents. */
  function Volume(lo: Cell, hi: Cell): nat
    requires |lo| == |hi|
    decreases |lo|
  {
    if |lo| == 0 then 1 else Extent(lo[0], hi[0]) * Volume(lo[1..], hi[1..])
  }

  lemma {:induction false} RowsMember(x0: int, x1: int, ts: seq<Cell>, c: Cell)
    ensures c in Rows(x0, x1, ts) <==> |c| >= 1 && x0 <= c[0] <= x1 && c[1..] in ts
  {
    if |ts| > 0 {
      RowsMember(x0, x1, ts[1..], c);
      if |c| >= 1 && x0 <= c[0] <= x1 && c[1..] == ts[0] {
        assert Row(x0, x1, ts[0])[c[0] - x0] == c;
      }
    }
  }

  lemma {:induction false} CellsMember(lo: Cell, hi: Cell, c: Cell)
    requires |lo| == |hi|
    ensures c in Cells(lo, hi) <==> Contains(Box(lo, hi), c)
    decreases |lo|
  {
    if |lo| > 0 {
      RowsMember(lo[0], hi[0], Cells(lo[1..], hi[1..]), c);
      if |c| >= 1 {
        CellsMember(lo[1..], hi[1..], c[1..]);
        if Contains(Box(lo[1..], hi[1..]), c[1..]) && lo[0] <= c[0] <= hi[0] {
          forall d | 0 <= d < |c|
            ensures lo[d] <= c[d] <= hi[d]
          {
            if d > 0 {
              assert c[1..][d - 1] == c[d];
            }
          }
        }
        if Contains(Box(lo, hi), c) {
          forall d | 0 <= d < |c| - 1
            ensures lo[1..][d] <= c[1..][d] <= hi[1..][d]
          {
            assert c[1..][d] == c[d + 1];
          }
        }
      }
    }
  }

  /** Walking the box cells visits exactly the cells the box contains. */
  lemma BoxCellsMember(b: Box, c: Cell)
    requires b.Valid()
    ensures c in BoxCells(b) <==> Contains(b, c)
  {
    CellsMember(b.lo, b.hi, c);
  }

  lemma {:induction false} RowsLength(x0: int, x1: int, ts: seq<Cell>)
    ensures |Rows(x0, x1, ts)| == |ts| * Extent(x0, x1)
  {
    if |ts| > 0 {
      RowsLength(x0, x1, ts[1..]);
    }
  }

  /** The number of visited cells is the box volume. */
  lemma {:induction false} CellsLength(lo: Cell, hi: Cell)
    requires |lo| == |hi|
    ensures |Cells(lo, hi)| == Volume(lo, hi)
    decreases |lo|
  {
    if |lo| > 0 {
      CellsLength(lo[1..], hi[1..]);
      RowsLength(lo[0], hi[0], Cells(lo[1..], hi[1..]));
    }
  }

  lemma {:induction false} RowsDistinct(x0: int, x1: int, ts: seq<Cell>)
    requires Distinct(ts)
    ensures Distinct(Rows(x0, x1, ts))
  {
    if |ts| > 0 {
      RowsDistinct(x0, x1, ts[1..]);
      var row := Row(x0, x1, ts[0]);
      var rest := Rows(x0, x1, ts[1..]);
      forall i, j | 0 <= i < |row| && 0 <= j < |rest|
        ensures row[i] != rest[j]
      {
        RowsMember(x0, x1, ts[1..], rest[j]);
        assert rest[j] in rest;
        assert row[i][1..] == ts[0];
        assert ts[0] !in ts[1..];
      }
      forall i, j | 0 <= i < j < |row|
        ensures row[i] != row[j]
      {
        assert row[i][0] == x0 + i && row[j][0] == x0 + j;
      }
      DistinctAppend(row, rest);
      assert Rows(x0, x1, ts) == row + rest;
    }
  }

  /** No cell is visited twice. */
  lemma {:induction false} CellsDistinct(lo: Cell, hi: Cell)
    requires |lo| == |hi|
    ensures Distinct(Cells(lo, hi))
    decreases |lo|
  {
    if |lo| > 0 {
      CellsDistinct(lo[1..], hi[1..]);
      RowsDistinct(lo[0], hi[0], Cells(lo[1..], hi[1..]));
    }
  }

  predicate NonEmpty(lo: Cell, hi: Cell) {
    |lo| == |hi| && forall d :: 0 <= d < |lo| ==> lo[d] <= hi[d]
  }

  /** Consecutive entries of `r` are related by `Next`. */
  predicate Steps(lo: Cell, hi: Cell, r: seq<Cell>)
    requires |lo| == |hi| >= 1
  {
    forall k :: 0 <= k < |r| - 1 ==> |r[k]| == |lo| && r[k + 1] == Next(lo, hi, r[k])
  }

  lemma {:induction false} RowsSteps(lo: Cell, hi: Cell, ts: seq<Cell>)
    requires NonEmpty(lo, hi) && |lo| >= 1
    requires forall k :: 0 <= k < |ts| ==> |ts[k]| == |lo| - 1
    requires |lo| == 1 ==> |ts| <= 1
    requires |lo| > 1 ==> Steps(lo[1..], hi[1..], ts)
    ensures Steps(lo, hi, Rows(lo[0], hi[0], ts))
  {
    if |ts| > 0 {
      var row := Row(lo[0], hi[0], ts[0]);
      var rest := Rows(lo[0], hi[0], ts[1..]);
      if |lo| > 1 {
        assert Steps(lo[1..], hi[1..], ts[1..]) by {
          forall k | 0 <= k < |ts[1..]| - 1
            ensures |ts[1..][k]| == |lo| - 1 && ts[1..][k + 1] == Next(lo[1..], hi[1..], ts[1..][k])
          {
            assert ts[1..][k] == ts[k + 1] && ts[1..][k + 1] == ts[k + 2];
          }
        }
      }
      RowsSteps(lo, hi, ts[1..]);
      var r := row + rest;
      assert Rows(lo[0], hi[0], ts) == r;
      forall k | 0 <= k < |r| - 1
        ensures |r[k]| == |lo| && r[k + 1] == Next(lo, hi, r[k])
      {
        if k + 1 < |row| {
          assert r[k] == [lo[0] + k] + ts[0];
          assert r[k + 1] == [lo[0] + k + 1] + ts[0];
          assert r[k][1..] == ts[0];
        } else if k + 1 == |row| {
          assert r[k] == [hi[0]] + ts[0];
          assert |ts| > 1;
          assert rest == Row(lo[0], hi[0], ts[1]) + Rows(lo[0], hi[0], ts[2..]) by {
            assert ts[1..][0] == ts[1];
            assert ts[1..][1..] == ts[2..];
          }
          assert r[k + 1] == rest[0] == [lo[0]] + ts[1];
          assert r[k][1..] == ts[0];
        } else {
          assert r[k] == rest[k - |row|] && r[k + 1] == rest[k - |row| + 1];
        }
      }
    }
  }

  lemma CellsLengths(lo: Cell, hi: Cell)
    requires |lo| == |hi|
    ensures forall k :: 0 <= k < |Cells(lo, hi)| ==> |Cells(lo, hi)[k]| == |lo|
  {
    forall k | 0 <= k < |Cells(lo, hi)|
      ensures |Cells(lo, hi)[k]| == |lo|
    {
      CellsMember(lo, hi, Cells(lo, hi)[k]);
    }
  }

  lemma {:induction false} CellsSteps(lo: Cell, hi: Cell)
    requires NonEmpty(lo, hi) && |lo| >= 1
    ensures Steps(lo, hi, Cells(lo, hi))
    decreases |lo|
  {
    CellsLengths(lo[1..], hi[1..]);
    if |lo| > 1 {
      assert NonEmpty(lo[1..], hi[1..]);
      CellsSteps(lo[1..], hi[1..]);
    }
    RowsSteps(lo, hi, Cells(lo[1..], hi[1..]));
  }

  lemma {:induction false} CellsFirstLast(lo: Cell, hi: Cell)
    requires NonEmpty(lo, hi)
    ensures var r := Cells(lo, hi); |r| > 0 && r[0] == lo && r[|r| - 1] == hi
    decreases |lo|
  {
    if |lo| > 0 {
      var lo', hi' := lo[1..], hi[1..];
      assert NonEmpty(lo', hi');
      var ts := Cells(lo', hi');
      CellsFirstLast(lo', hi');
      assert Cells(lo, hi) == Rows(lo[0], hi[0], ts);
      RowsFirstLast(lo[0], hi[0], ts);
      assert lo == [lo[0]] + lo';
      assert hi == [hi[0]] + hi';
    }
  }

  lemma {:induction false} NextLeaves(lo: Cell, hi: Cell)
    requires NonEmpty(lo, hi) && |lo| >= 1
    ensures !Contains(Box(lo, hi), Next(lo, hi, hi))
    decreases |lo|
  {
    var n := Next(lo, hi, hi);
    if |lo| == 1 {
      assert n[0] == hi[0] + 1;
    } else {
      var lo', hi' := lo[1..], hi[1..];
      assert NonEmpty(lo', hi');
      NextLeaves(lo', hi');
      var n' := Next(lo', hi', hi');
      assert n == [lo[0]] + n';
      assert !Contains(Box(lo', hi'), n');
      var d :| 0 <= d < |n'| && !(lo'[d] <= n'[d] <= hi'[d]);
      assert n'[d] == n[d + 1] && lo'[d] == lo[d + 1] && hi'[d] == hi[d + 1];
    }
  }

  /** Walking a non-empty box: the walk starts at the low corner, ends at the high
      corner, each step is `Next`, and `Next` of the high corner leaves the box, which
      is what ends the `for (iv = lo; iv <= hi; bx.next(iv))` loops. */
  lemma CellsWalk(lo: Cell, hi: Cell)
    requires NonEmpty(lo, hi) && |lo| >= 1
    ensures var r := Cells(lo, hi);
      && |r| > 0
      && r[0] == lo
      && r[|r| - 1] == hi
      && Steps(lo, hi, r)
      && !Contains(Box(lo, hi), Next(lo, hi, hi))
  {
    CellsFirstLast(lo, hi);
    CellsSteps(lo, hi);
    NextLeaves(lo, hi);
  }

  lemma {:induction false} RowsFirstLast(x0: int, x1: int, ts: seq<Cell>)
    requires x0 <= x1 && |ts| > 0
    ensures var r := Rows(x0, x1, ts);
      |r| > 0 && r[0] == [x0] + ts[0] && r[|r| - 1] == [x1] + ts[|ts| - 1]
  {
    if |ts| > 1 {
      RowsFirstLast(x0, x1, ts[1..]);
      assert ts[1..][|ts[1..]| - 1] == ts[|ts| - 1];
    }
  }
}
