/** Which neighbouring tiles must receive a copy of a particle that sits near its
    tile's boundary (`fillNeighbors`, the face / edge / vertex enumeration). */
module Classify {
  import opened Seqs
  import opened Boxes

  /** The per-axis shift towards the nearer face: `-n` within `n` cells of the low face
      (this test is made first, so it wins for thin tiles), `+n` within `n` cells of the
      high face, `0` otherwise. */
  function Shift(iv: Cell, tile: Box, n: nat): (s: seq<int>)
    requires |iv| == |tile.lo| == |tile.hi|
    ensures |s| == |iv|
    ensures forall d :: 0 <= d < |s| ==> s[d] in {-(n as int), 0, n as int}
    ensures forall d :: 0 <= d < |s| ==> (s[d] < 0 <==> n > 0 && iv[d] - n < tile.lo[d])
    ensures forall d :: 0 <= d < |s| ==>
      (s[d] > 0 <==> n > 0 && iv[d] - n >= tile.lo[d] && iv[d] + n > tile.hi[d])
  {
    seq(|iv|, d requires 0 <= d < |iv| =>
      if iv[d] <= tile.lo[d] + n - 1 then -(n as int)
      else if iv[d] >= tile.hi[d] - n + 1 then n
      else 0)
  }

  /** The axes a shift moves. */
  function Support(s: seq<int>): set<nat> {
    set d: nat | d < |s| && s[d] != 0
  }

  /** Number of nonzero entries among the first `d`. */
  function NonZero(s: seq<int>, d: nat): (k: nat)
    requires d <= |s|
    ensures k <= d
  {
    if d == 0 then 0 else NonZero(s, d - 1) + (if s[d - 1] != 0 then 1 else 0)
  }

  /** Number of unordered pairs drawn from `k` items. */
  function Pairs(k: nat): nat {
    if k == 0 then 0 else Pairs(k - 1) + (k - 1)
  }

  // ---------------------------------------------------------------------------
  // The enumeration, as sets of shifted axes, in the order of the source loops
  // ---------------------------------------------------------------------------

  /** Face neighbours: one shifted axis, for each nonzero axis below `d`. */
  function Faces(s: seq<int>, d: nat): seq<set<nat>>
    requires d <= |s|
  {
    if d == 0 then [] else Faces(s, d - 1) + (if s[d - 1] != 0 then [{d - 1}] else [])
  }

  /** Edge neighbours pairing axis `i` with each axis below `j`. */
  function EdgesWith(s: seq<int>, i: nat, j: nat): seq<set<nat>>
    requires j <= i < |s|
  {
    if j == 0 then []
    else EdgesWith(s, i, j - 1) + (if s[i] != 0 && s[j - 1] != 0 then [{i, j - 1}] else [])
  }

  /** Edge neighbours: two shifted axes, for each pair below `d`. */
  function Edges(s: seq<int>, d: nat): seq<set<nat>>
    requires d <= |s|
  {
    if d == 0 then [] else Edges(s, d - 1) + EdgesWith(s, d - 1, d - 1)
  }

  /** The vertex neighbour: all three axes, in three dimensions only. */
  function Vertex(s: seq<int>): seq<set<nat>> {
    if |s| == 3 && s[0] != 0 && s[1] != 0 && s[2] != 0 then [{0, 1, 2}] else []
  }

  function AxisSets(s: seq<int>): seq<set<nat>> {
    Faces(s, |s|) + Edges(s, |s|) + Vertex(s)
  }

  /** The offset moving the axes in `axes` by their shift. */
  function OffsetOf(s: seq<int>, axes: set<nat>): (o: seq<int>)
    ensures |o| == |s|
  {
    seq(|s|, d requires 0 <= d < |s| => if d in axes then s[d] else 0)
  }

  function Offsets(s: seq<int>): (os: seq<seq<int>>)
    ensures |os| == |AxisSets(s)|
  {
    var a := AxisSets(s);
    seq(|a|, k requires 0 <= k < |a| => OffsetOf(s, a[k]))
  }

  function AddCell(c: Cell, o: seq<int>): (r: Cell)
    requires |o| == |c|
    ensures |r| == |c|
  {
    seq(|c|, d requires 0 <= d < |c| => c[d] + o[d])
  }

  /** The candidate destination cells of a particle in cell `iv` of `tile`, in the order
      `fillNeighbors` visits them: faces, then edges, then the vertex. */
  function NeighborCells(iv: Cell, tile: Box, n: nat): (r: seq<Cell>)
    requires |iv| == |tile.lo| == |tile.hi|
    ensures forall k :: 0 <= k < |r| ==> |r[k]| == |iv|
  {
    if Contains(Grow(tile, -(n as int)), iv) then []
    else
      var os := Offsets(Shift(iv, tile, n));
      seq(|os|, k requires 0 <= k < |os| => AddCell(iv, os[k]))
  }

  // ---------------------------------------------------------------------------
  // What the enumeration contains
  // ---------------------------------------------------------------------------

  lemma {:induction false} FacesMember(s: seq<int>, d: nat, a: set<nat>)
    requires d <= |s|
    ensures a in Faces(s, d) <==> exists e :: 0 <= e < d && s[e] != 0 && a == {e}
  {
    if d > 0 {
      FacesMember(s, d - 1, a);
    }
  }

  lemma {:induction false} EdgesWithMember(s: seq<int>, i: nat, j: nat, a: set<nat>)
    requires j <= i < |s|
    ensures a in EdgesWith(s, i, j) <==> s[i] != 0 && exists e :: 0 <= e < j && s[e] != 0 && a == {i, e}
  {
    if j > 0 {
      EdgesWithMember(s, i, j - 1, a);
    }
  }

  lemma {:induction false} EdgesMember(s: seq<int>, d: nat, a: set<nat>)
    requires d <= |s|
    ensures a in Edges(s, d) <==>
      exists i, e :: 0 <= e < i < d && s[i] != 0 && s[e] != 0 && a == {i, e}
  {
    if d > 0 {
      EdgesMember(s, d - 1, a);
      EdgesWithMember(s, d - 1, d - 1, a);
      var prev, last := Edges(s, d - 1), EdgesWith(s, d - 1, d - 1);
      assert Edges(s, d) == prev + last;
      assert a in Edges(s, d) <==> a in prev || a in last;
      if exists i, e :: 0 <= e < i < d && s[i] != 0 && s[e] != 0 && a == {i, e} {
        var i, e :| 0 <= e < i < d && s[i] != 0 && s[e] != 0 && a == {i, e};
        if i == d - 1 {
          assert a in EdgesWith(s, d - 1, d - 1);
        } else {
          assert a in Edges(s, d - 1);
        }
      }
    }
  }

  // ---------------------------------------------------------------------------
  // No destination is enumerated twice
  // ---------------------------------------------------------------------------

  lemma {:induction false} FacesDistinct(s: seq<int>, d: nat)
    requires d <= |s|
    ensures Distinct(Faces(s, d))
  {
    if d > 0 {
      FacesDistinct(s, d - 1);
      var prev := Faces(s, d - 1);
      var last: seq<set<nat>> := if s[d - 1] != 0 then [{d - 1}] else [];
      forall p, q | 0 <= p < |prev| && 0 <= q < |last|
        ensures prev[p] != last[q]
      {
        FacesMember(s, d - 1, prev[p]);
        assert prev[p] in prev;
      }
      DistinctAppend(prev, last);
    }
  }

  lemma {:induction false} EdgesWithDistinct(s: seq<int>, i: nat, j: nat)
    requires j <= i < |s|
    ensures Distinct(EdgesWith(s, i, j))
  {
    if j > 0 {
      EdgesWithDistinct(s, i, j - 1);
      var prev := EdgesWith(s, i, j - 1);
      var last: seq<set<nat>> := if s[i] != 0 && s[j - 1] != 0 then [{i, j - 1}] else [];
      forall p, q | 0 <= p < |prev| && 0 <= q < |last|
        ensures prev[p] != last[q]
      {
        EdgesWithMember(s, i, j - 1, prev[p]);
        assert prev[p] in prev;
      }
      DistinctAppend(prev, last);
    }
  }

  lemma {:induction false} EdgesDistinct(s: seq<int>, d: nat)
    requires d <= |s|
    ensures Distinct(Edges(s, d))
  {
    if d > 0 {
      EdgesDistinct(s, d - 1);
      EdgesWithDistinct(s, d - 1, d - 1);
      var prev := Edges(s, d - 1);
      var last := EdgesWith(s, d - 1, d - 1);
      forall p, q | 0 <= p < |prev| && 0 <= q < |last|
        ensures prev[p] != last[q]
      {
        EdgesAvoid(s, d - 1, prev[p]);
        EdgesWithHas(s, d - 1, d - 1, last[q]);
      }
      DistinctAppend(prev, last);
    }
  }

  /** An edge among the first `d` axes does not involve axis `d`. */
  lemma EdgesAvoid(s: seq<int>, d: nat, a: set<nat>)
    requires d <= |s| && a in Edges(s, d)
    ensures d !in a
  {
    EdgesMember(s, d, a);
  }

  /** Every edge paired with axis `i` involves axis `i`. */
  lemma EdgesWithHas(s: seq<int>, i: nat, j: nat, a: set<nat>)
    requires j <= i < |s| && a in EdgesWith(s, i, j)
    ensures i in a
  {
    EdgesWithMember(s, i, j, a);
  }

  /** The shifted axes of every enumerated neighbour are a nonempty set of shifted axes. */
  lemma AxisSetsSound(s: seq<int>, a: set<nat>)
    requires a in AxisSets(s)
    ensures a != {} && a <= Support(s)
    ensures 1 <= |a| <= 3
  {
    FacesMember(s, |s|, a);
    EdgesMember(s, |s|, a);
    if a in Faces(s, |s|) {
    } else if a in Edges(s, |s|) {
      var i, e :| 0 <= e < i < |s| && s[i] != 0 && s[e] != 0 && a == {i, e};
      assert |a| == 2;
    } else {
      assert a == {0, 1, 2} && |s| == 3;
    }
  }

  lemma {:induction false} AxisSetsDistinct(s: seq<int>)
    ensures Distinct(AxisSets(s))
  {
    var f, e, v := Faces(s, |s|), Edges(s, |s|), Vertex(s);
    FacesDistinct(s, |s|);
    EdgesDistinct(s, |s|);
    forall p, q | 0 <= p < |f| && 0 <= q < |e|
      ensures f[p] != e[q]
    {
      FacesMember(s, |s|, f[p]);
      assert f[p] in f;
      EdgesMember(s, |s|, e[q]);
      assert e[q] in e;
      var i, x :| 0 <= x < i < |s| && s[i] != 0 && s[x] != 0 && e[q] == {i, x};
      assert |e[q]| == 2;
    }
    DistinctAppend(f, e);
    forall p, q | 0 <= p < |f + e| && 0 <= q < |v|
      ensures (f + e)[p] != v[q]
    {
      var a := (f + e)[p];
      assert a in f + e;
      if a in f {
        FacesMember(s, |s|, a);
        var x :| 0 <= x < |s| && s[x] != 0 && a == {x};
        assert |a| == 1;
      } else {
        EdgesMember(s, |s|, a);
        var i, x :| 0 <= x < i < |s| && s[i] != 0 && s[x] != 0 && a == {i, x};
        assert |a| == 2;
      }
      assert |v[q]| == 3;
    }
    DistinctAppend(f + e, v);
  }

  /** In at most three dimensions every nonempty set of shifted axes is enumerated. */
  lemma AxisSetsComplete(s: seq<int>, a: set<nat>)
    requires |s| <= 3
    requires a != {} && a <= Support(s)
    ensures a in AxisSets(s)
  {
    var x :| x in a;
    var rest := a - {x};
    if rest == {} {
      assert a == {x};
      FacesMember(s, |s|, a);
      assert a in Faces(s, |s|);
    } else {
      var y :| y in rest;
      var rest2 := rest - {y};
      if rest2 == {} {
        assert a == {x, y};
        EdgesMember(s, |s|, a);
        if x < y {
          assert a == {y, x};
        }
        assert a in Edges(s, |s|);
      } else {
        var z :| z in rest2;
        assert x != y && y != z && x != z;
        assert x < 3 && y < 3 && z < 3;
        assert |s| == 3;
        assert a == {0, 1, 2} by {
          assert 0 in a && 1 in a && 2 in a;
          forall w | w in a ensures w < 3 { }
        }
        assert a in Vertex(s);
      }
    }
  }

  // ---------------------------------------------------------------------------
  // How many destinations
  // ---------------------------------------------------------------------------

  lemma {:induction false} FacesCount(s: seq<int>, d: nat)
    requires d <= |s|
    ensures |Faces(s, d)| == NonZero(s, d)
  {
    if d > 0 {
      FacesCount(s, d - 1);
    }
  }

  lemma {:induction false} EdgesWithCount(s: seq<int>, i: nat, j: nat)
    requires j <= i < |s|
    ensures |EdgesWith(s, i, j)| == if s[i] != 0 then NonZero(s, j) else 0
  {
    if j > 0 {
      EdgesWithCount(s, i, j - 1);
    }
  }

  lemma {:induction false} EdgesCount(s: seq<int>, d: nat)
    requires d <= |s|
    ensures |Edges(s, d)| == Pairs(NonZero(s, d))
  {
    if d > 0 {
      EdgesCount(s, d - 1);
      EdgesWithCount(s, d - 1, d - 1);
      var k := NonZero(s, d - 1);
      assert NonZero(s, d) == k + (if s[d - 1] != 0 then 1 else 0);
      assert |Edges(s, d)| == |Edges(s, d - 1)| + |EdgesWith(s, d - 1, d - 1)|;
      PairsStep(k, s[d - 1] != 0);
    }
  }

  /** Adding one axis to `k` shifted ones adds `k` new pairs when it is shifted itself. */
  lemma PairsStep(k: nat, shifted: bool)
    ensures Pairs(k + (if shifted then 1 else 0)) == Pairs(k) + (if shifted then k else 0)
  {
  }

  function Pow2(k: nat): nat {
    if k == 0 then 1 else 2 * Pow2(k - 1)
  }

  lemma AxisSetsCount(s: seq<int>)
    ensures var k := NonZero(s, |s|);
      |AxisSets(s)| == k + Pairs(k) + (if |s| == 3 && k == 3 then 1 else 0)
  {
    FacesCount(s, |s|);
    EdgesCount(s, |s|);
    if |s| == 3 {
      assert NonZero(s, 1) == (if s[0] != 0 then 1 else 0);
      assert NonZero(s, 2) == NonZero(s, 1) + (if s[1] != 0 then 1 else 0);
      assert NonZero(s, 3) == NonZero(s, 2) + (if s[2] != 0 then 1 else 0);
    }
  }

  // ---------------------------------------------------------------------------
  // Offsets
  // ---------------------------------------------------------------------------

  /** An offset the classification can produce from shift `s`: every axis either stays
      or moves by its shift, and at least one axis moves. */
  predicate IsCandidateOffset(s: seq<int>, o: seq<int>) {
    && |o| == |s|
    && (forall d :: 0 <= d < |s| ==> o[d] == 0 || o[d] == s[d])
    && (exists d :: 0 <= d < |s| && o[d] != 0)
  }

  lemma OffsetOfSupportInjective(s: seq<int>, a: set<nat>, b: set<nat>)
    requires a <= Support(s) && b <= Support(s)
    requires OffsetOf(s, a) == OffsetOf(s, b)
    ensures a == b
  {
    forall d | d in a ensures d in b {
      assert OffsetOf(s, a)[d] == s[d] != 0;
    }
    forall d | d in b ensures d in a {
      assert OffsetOf(s, b)[d] == s[d] != 0;
    }
  }

  /** In up to three dimensions the enumerated offsets are exactly the candidate offsets. */
  lemma OffsetsExact(s: seq<int>, o: seq<int>)
    requires |s| <= 3
    ensures o in Offsets(s) <==> IsCandidateOffset(s, o)
  {
    var sets := AxisSets(s);
    var os := Offsets(s);
    if o in os {
      var k :| 0 <= k < |os| && os[k] == o;
      AxisSetsSound(s, sets[k]);
      var d :| d in sets[k];
      assert o[d] == s[d] != 0;
    }
    if IsCandidateOffset(s, o) {
      var a := set d: nat | d < |s| && o[d] != 0;
      var w :| 0 <= w < |s| && o[w] != 0;
      assert w in a;
      AxisSetsComplete(s, a);
      var k :| 0 <= k < |sets| && sets[k] == a;
      assert os[k] == o;
    }
  }

  lemma OffsetsDistinct(s: seq<int>)
    ensures Distinct(Offsets(s))
  {
    var sets := AxisSets(s);
    var os := Offsets(s);
    AxisSetsDistinct(s);
    forall i, j | 0 <= i < j < |os|
      ensures os[i] != os[j]
    {
      AxisSetsSound(s, sets[i]);
      AxisSetsSound(s, sets[j]);
      if os[i] == os[j] {
        OffsetOfSupportInjective(s, sets[i], sets[j]);
      }
    }
  }

  /** In up to three dimensions a particle with `k` shifted axes gets `2^k - 1`
      destinations: `k` faces, `k(k-1)/2` edges, and the vertex when `k` is three. */
  lemma OffsetsCount(s: seq<int>)
    requires |s| <= 3
    ensures |Offsets(s)| == Pow2(NonZero(s, |s|)) - 1
  {
    AxisSetsCount(s);
    var k := NonZero(s, |s|);
    assert k <= 3;
    if k == 3 {
      assert Pairs(3) == 3;
    } else if k == 2 {
      assert Pairs(2) == 1;
    }
  }

  // ---------------------------------------------------------------------------
  // Destination cells
  // ---------------------------------------------------------------------------

  /** A particle has no destinations exactly when its cell is at least `n` cells away
      from every face of its tile. */
  lemma NoNeighborsIffInterior(iv: Cell, tile: Box, n: nat)
    requires |iv| == |tile.lo| == |tile.hi| && n >= 1
    ensures NeighborCells(iv, tile, n) == [] <==> Contains(Grow(tile, -(n as int)), iv)
  {
    var shrunk := Grow(tile, -(n as int));
    if !Contains(shrunk, iv) {
      var s := Shift(iv, tile, n);
      var d :| 0 <= d < |iv| && !(shrunk.lo[d] <= iv[d] <= shrunk.hi[d]);
      assert s[d] != 0;
      assert {d} <= Support(s);
      FacesMember(s, |s|, {d});
      assert {d} in AxisSets(s);
    }
  }

  /** The destination cells are the particle's cell moved by each candidate offset. */
  lemma NeighborCellsExact(iv: Cell, tile: Box, n: nat, c: Cell)
    requires |iv| == |tile.lo| == |tile.hi| <= 3
    requires !Contains(Grow(tile, -(n as int)), iv)
    ensures c in NeighborCells(iv, tile, n) <==>
      exists o :: IsCandidateOffset(Shift(iv, tile, n), o) && c == AddCell(iv, o)
  {
    var s := Shift(iv, tile, n);
    var os := Offsets(s);
    var r := NeighborCells(iv, tile, n);
    if c in r {
      var k :| 0 <= k < |r| && r[k] == c;
      assert os[k] in os;
      OffsetsExact(s, os[k]);
    }
    if exists o :: IsCandidateOffset(s, o) && c == AddCell(iv, o) {
      var o :| IsCandidateOffset(s, o) && c == AddCell(iv, o);
      OffsetsExact(s, o);
      var k :| 0 <= k < |os| && os[k] == o;
      assert r[k] == c;
    }
  }

  lemma NeighborCellsDistinct(iv: Cell, tile: Box, n: nat)
    requires |iv| == |tile.lo| == |tile.hi|
    ensures Distinct(NeighborCells(iv, tile, n))
  {
    var r := NeighborCells(iv, tile, n);
    if r != [] {
      var os := Offsets(Shift(iv, tile, n));
      OffsetsDistinct(Shift(iv, tile, n));
      forall i, j | 0 <= i < j < |r|
        ensures r[i] != r[j]
      {
        assert os[i] != os[j];
        var d :| 0 <= d < |iv| && os[i][d] != os[j][d];
        assert r[i][d] == iv[d] + os[i][d] && r[j][d] == iv[d] + os[j][d];
      }
    }
  }

  /** With `k` axes near a face a particle has `2^k - 1` destinations. */
  lemma NeighborCellsCount(iv: Cell, tile: Box, n: nat)
    requires |iv| == |tile.lo| == |tile.hi| <= 3
    requires !Contains(Grow(tile, -(n as int)), iv)
    ensures |NeighborCells(iv, tile, n)| == Pow2(NonZero(Shift(iv, tile, n), |iv|)) - 1
  {
    OffsetsCount(Shift(iv, tile, n));
  }

  /** Every destination of a particle of the tile lies outside the tile but within its
      halo of width `n`, where the tile's mask is defined. */
  lemma NeighborCellsInHalo(iv: Cell, tile: Box, n: nat, c: Cell)
    requires |iv| == |tile.lo| == |tile.hi| && n >= 1
    requires Contains(tile, iv)
    requires c in NeighborCells(iv, tile, n)
    ensures Contains(Grow(tile, n), c)
    ensures !Contains(tile, c)
  {
    var s := Shift(iv, tile, n);
    var os := Offsets(s);
    var sets := AxisSets(s);
    var r := NeighborCells(iv, tile, n);
    var k :| 0 <= k < |r| && r[k] == c;
    AxisSetsSound(s, sets[k]);
    var d :| d in sets[k];
    assert c[d] == iv[d] + s[d];
    assert os[k] == OffsetOf(s, sets[k]);
    forall e | 0 <= e < |c|
      ensures tile.lo[e] - n <= c[e] <= tile.hi[e] + n
    {
      assert c[e] == iv[e] + os[k][e];
    }
  }

  /** A particle in the low corner cell of a two-dimensional tile goes to three tiles. */
  lemma CornerParticle2D(tile: Box, n: nat)
    requires |tile.lo| == |tile.hi| == 2 && n >= 1
    ensures |NeighborCells(tile.lo, tile, n)| == 3
  {
    var s := Shift(tile.lo, tile, n);
    assert Grow(tile, -(n as int)).lo[0] == tile.lo[0] + n;
    assert s[0] != 0 && s[1] != 0;
    assert NonZero(s, 1) == 1;
    assert NonZero(s, 2) == 2;
    NeighborCellsCount(tile.lo, tile, n);
  }

  /** A particle in the low corner cell of a three-dimensional tile goes to seven tiles. */
  lemma CornerParticle3D(tile: Box, n: nat)
    requires |tile.lo| == |tile.hi| == 3 && n >= 1
    ensures |NeighborCells(tile.lo, tile, n)| == 7
  {
    var s := Shift(tile.lo, tile, n);
    assert Grow(tile, -(n as int)).lo[0] == tile.lo[0] + n;
    assert s[0] != 0 && s[1] != 0 && s[2] != 0;
    assert NonZero(s, 1) == 1;
    assert NonZero(s, 2) == 2;
    assert NonZero(s, 3) == 3;
    NeighborCellsCount(tile.lo, tile, n);
  }
}
