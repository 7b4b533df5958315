/** `buildNeighborList`: the particles of a tile and the neighbour copies it received
    are merged, binned into per-cell linked lists over the tile box grown by the halo
    width, and for each merged particle the list of candidates in the cells around it
    is emitted as a count followed by one-based indices. Optionally every sublist is
    sorted. */
module NeighborList {
  import opened Wrappers
  import opened Seqs
  import opened Boxes
  import opened Bytes
  import opened Records

  // ---------------------------------------------------------------------------
  // Merging the tile's particles with the received copies
  // ---------------------------------------------------------------------------

  /** `tmp_particles`: the tile's particles followed by the whole records in the tile's
      neighbour buffer (`Nn = size / pdata_size`; a trailing partial record is ignored). */
  function Merge(sc: Schema, particles: seq<Particle>, nbytes: seq<byte>): (r: seq<Particle>)
    ensures |r| == |particles| + RecordCount(sc, nbytes)
    ensures r[..|particles|] == particles
    ensures forall i :: |particles| <= i < |r| ==> WellFormed(sc, r[i])
  {
    particles + DecodeRecords(sc, nbytes, RecordCount(sc, nbytes))
  }

  /** A buffer made of packed copies merges back to exactly those copies. */
  lemma MergeRoundTrip(sc: Schema, particles: seq<Particle>, copies: seq<Particle>)
    requires forall i :: 0 <= i < |copies| ==> WellFormed(sc, copies[i])
    ensures Merge(sc, particles, EncodeAll(copies)) == particles + copies
  {
    RecordsRoundTrip(sc, copies);
  }

  // ---------------------------------------------------------------------------
  // Binning: `head` per cell and `list` per particle
  // ---------------------------------------------------------------------------

  /** The largest index below `k` whose cell is `c`, or -1. */
  function Last<T(==)>(cells: seq<T>, c: T, k: nat): (r: int)
    requires k <= |cells|
    ensures -1 <= r < k
    ensures r >= 0 ==> cells[r] == c
  {
    if k == 0 then -1 else if cells[k - 1] == c then k - 1 else Last(cells, c, k - 1)
  }

  /** The particle before `k` in the same cell: what `list[k]` holds after binning. */
  function Prev<T(==)>(cells: seq<T>, k: nat): (r: int)
    requires k < |cells|
    ensures -1 <= r < k
  {
    Last(cells, cells[k], k)
  }

  /** `head(cell)`, with cells never written reading as the initial -1. */
  function HeadAt<T>(head: map<T, int>, c: T): int {
    if c in head then head[c] else -1
  }

  /** Every link points strictly backwards (or is -1), so walking a chain ends. */
  predicate Linked(list: seq<int>) {
    forall k :: 0 <= k < |list| ==> -1 <= list[k] < k
  }

  /** The binning loop: each particle is pushed on the front of its cell's list. */
  method Bin<T(==,!new)>(cells: seq<T>) returns (head: map<T, int>, list: seq<int>)
    ensures |list| == |cells|
    ensures forall c :: HeadAt(head, c) == Last(cells, c, |cells|)
    ensures forall k :: 0 <= k < |cells| ==> list[k] == Prev(cells, k)
  {
    var next := new int[|cells|](_ => -1);
    head := map[];
    for i := 0 to |cells|
      invariant forall c :: HeadAt(head, c) == Last(cells, c, i)
      invariant forall k :: 0 <= k < i ==> next[k] == Prev(cells, k)
    {
      var cell := cells[i];
      next[i] := HeadAt(head, cell);
      head := Push(head, cells, i);
    }
    list := next[..];
  }

  /** One binning step: cell `cells[i]` now starts at particle `i`. */
  function Push<T(==,!new)>(head: map<T, int>, cells: seq<T>, i: nat): (r: map<T, int>)
    requires i < |cells|
    requires forall c :: HeadAt(head, c) == Last(cells, c, i)
    ensures forall c :: HeadAt(r, c) == Last(cells, c, i + 1)
  {
    var r := head[cells[i] := i];
    assert forall c :: HeadAt(r, c) == if c == cells[i] then i else HeadAt(head, c);
    r
  }

  /** The indices met walking a chain from `j`. */
  function Walk(list: seq<int>, j: int): (r: seq<int>)
    requires Linked(list) && j < |list|
    ensures forall m :: 0 <= m < |r| ==> 0 <= r[m] <= j
    decreases j + 1
  {
    if j < 0 then [] else [j] + Walk(list, list[j])
  }

  /** The indices below `k` whose cell is `c`, largest first. */
  function Occ<T(==)>(cells: seq<T>, c: T, k: nat): (r: seq<int>)
    requires k <= |cells|
    ensures forall m :: 0 <= m < |r| ==> 0 <= r[m] < k && cells[r[m]] == c
  {
    if k == 0 then [] else (if cells[k - 1] == c then [k - 1] else []) + Occ(cells, c, k - 1)
  }

  /** `Occ` holds every index with the cell, each once, in decreasing order. */
  lemma {:induction false} OccExact<T>(cells: seq<T>, c: T, k: nat)
    requires k <= |cells|
    ensures forall j :: j in Occ(cells, c, k) <==> 0 <= j < k && cells[j] == c
    ensures forall a, b :: 0 <= a < b < |Occ(cells, c, k)| ==> Occ(cells, c, k)[a] > Occ(cells, c, k)[b]
  {
    if k > 0 {
      OccExact(cells, c, k - 1);
    }
  }

  /** Links made by binning point backwards. */
  lemma BinLinked<T>(cells: seq<T>, list: seq<int>)
    requires |list| == |cells|
    requires forall m :: 0 <= m < |cells| ==> list[m] == Prev(cells, m)
    ensures Linked(list)
  {
    forall m | 0 <= m < |list| ensures -1 <= list[m] < m {
      assert list[m] == Prev(cells, m);
    }
  }

  /** Walking the chain from `head(c)` after binning visits exactly `Occ`. */
  lemma {:induction false} WalkFindsCell<T>(cells: seq<T>, list: seq<int>, c: T, k: nat)
    requires k <= |cells| && |list| == |cells| && Linked(list)
    requires forall m :: 0 <= m < |cells| ==> list[m] == Prev(cells, m)
    ensures Walk(list, Last(cells, c, k)) == Occ(cells, c, k)
  {
    if k > 0 {
      WalkFindsCell(cells, list, c, k - 1);
      if cells[k - 1] == c {
        assert list[k - 1] == Last(cells, c, k - 1);
        assert Walk(list, k - 1) == [k - 1] + Walk(list, list[k - 1]);
      } else {
        assert Last(cells, c, k) == Last(cells, c, k - 1);
        assert Occ(cells, c, k) == [] + Occ(cells, c, k - 1);
      }
    }
  }

  /** What `Bin` computes: the heads and links of the per-cell chains. */
  ghost predicate Binned<T(!new)>(cells: seq<T>, head: map<T, int>, list: seq<int>) {
    && |list| == |cells|
    && (forall c :: HeadAt(head, c) == Last(cells, c, |cells|))
    && (forall k :: 0 <= k < |cells| ==> list[k] == Prev(cells, k))
  }

  /** After binning, the chain of every cell lists exactly the merged indices in that
      cell, in decreasing index order. */
  lemma BinChains<T>(cells: seq<T>, head: map<T, int>, list: seq<int>, c: T)
    requires |list| == |cells|
    requires forall c' :: HeadAt(head, c') == Last(cells, c', |cells|)
    requires forall m :: 0 <= m < |cells| ==> list[m] == Prev(cells, m)
    ensures Linked(list) && HeadAt(head, c) < |list|
    ensures forall j :: j in Walk(list, HeadAt(head, c)) <==> 0 <= j < |cells| && cells[j] == c
    ensures forall a, b :: 0 <= a < b < |Walk(list, HeadAt(head, c))| ==>
      Walk(list, HeadAt(head, c))[a] > Walk(list, HeadAt(head, c))[b]
  {
    BinLinked(cells, list);
    WalkFindsCell(cells, list, c, |cells|);
    OccExact(cells, c, |cells|);
  }

  // ---------------------------------------------------------------------------
  // Reference definition of the sublists
  // ---------------------------------------------------------------------------

  /** The cells searched for particle cell `c`: its box grown by `n`, clipped to the
      head box. */
  function Window(c: Cell, n: nat, headBox: Box): (r: Box)
    requires |c| == |headBox.lo| == |headBox.hi|
    ensures r.Valid()
    ensures forall e :: Contains(r, e) <==> Contains(Around(c, n), e) && Contains(headBox, e)
  {
    Intersect(Around(c, n), headBox)
  }

  predicate IndicesIn(js: seq<int>, bound: int) {
    forall m :: 0 <= m < |js| ==> 0 <= js[m] < bound
  }

  /** The one-based entries particle `i` gets from the candidates `js`: every candidate
      other than `i` itself that passes `check_pair`. */
  function Hits<P>(ps: seq<P>, check: (P, P) -> bool, i: nat, js: seq<int>): (r: seq<int>)
    requires i < |ps| && IndicesIn(js, |ps|)
    ensures |r| <= |js|
  {
    if |js| == 0 then []
    else
      (if js[0] != i && check(ps[i], ps[js[0]]) then [js[0] + 1] else [])
      + Hits(ps, check, i, js[1..])
  }

  /** Per cell of `ivs`, the entries particle `i` gets from the particles binned there. */
  function Contributions<P, C(==)>(ps: seq<P>, cells: seq<C>, check: (P, P) -> bool, i: nat, ivs: seq<C>)
    : (r: seq<seq<int>>)
    requires |cells| == |ps| && i < |ps|
    ensures |r| == |ivs|
  {
    seq(|ivs|, k requires 0 <= k < |ivs| => Hits(ps, check, i, Occ(cells, ivs[k], |cells|)))
  }

  /** Cell dimensions agree with the head box. */
  predicate Shaped(cells: seq<Cell>, headBox: Box) {
    |headBox.lo| == |headBox.hi| && forall i :: 0 <= i < |cells| ==> |cells[i]| == |headBox.lo|
  }

  /** The window of particle `i`, cell by cell in `Box::next` order. */
  function WindowCells(cells: seq<Cell>, headBox: Box, n: nat, i: nat): seq<Cell>
    requires Shaped(cells, headBox) && i < |cells|
  {
    BoxCells(Window(cells[i], n, headBox))
  }

  /** The sublist of particle `i`. */
  function Sublist(ps: seq<Particle>, cells: seq<Cell>, headBox: Box, n: nat,
                   check: (Particle, Particle) -> bool, i: nat): seq<int>
    requires |cells| == |ps| && Shaped(cells, headBox) && i < |ps|
  {
    Flatten(Contributions(ps, cells, check, i, WindowCells(cells, headBox, n, i)))
  }

  function Sublists(ps: seq<Particle>, cells: seq<Cell>, headBox: Box, n: nat,
                    check: (Particle, Particle) -> bool): (r: seq<seq<int>>)
    requires |cells| == |ps| && Shaped(cells, headBox)
    ensures |r| == |ps|
  {
    seq(|ps|, i requires 0 <= i < |ps| => Sublist(ps, cells, headBox, n, check, i))
  }

  // ---------------------------------------------------------------------------
  // The count-prefixed layout
  // ---------------------------------------------------------------------------

  function Framed(subs: seq<seq<int>>): (r: seq<seq<int>>)
    ensures |r| == |subs|
  {
    seq(|subs|, i requires 0 <= i < |subs| => [|subs[i]|] + subs[i])
  }

  /** The neighbour list array: each sublist preceded by its length. */
  function Layout(subs: seq<seq<int>>): seq<int> {
    Flatten(Framed(subs))
  }

  lemma LayoutAppend(a: seq<seq<int>>, b: seq<seq<int>>)
    ensures Layout(a + b) == Layout(a) + Layout(b)
  {
    assert Framed(a + b) == Framed(a) + Framed(b);
    FlattenAppend(Framed(a), Framed(b));
  }

  lemma LayoutOne(s: seq<int>)
    ensures Layout([s]) == [|s|] + s
  {
    var f := Framed([s]);
    assert f == [[|s|] + s];
    assert f[1..] == [];
    assert Flatten(f) == f[0] + Flatten(f[1..]);
    assert f[0] + [] == f[0];
  }

  /** The array holds one count per particle plus all the entries. */
  lemma {:induction false} LayoutLength(subs: seq<seq<int>>)
    ensures |Layout(subs)| == |subs| + SumLengths(subs)
  {
    if |subs| > 0 {
      LayoutAppend([subs[0]], subs[1..]);
      assert [subs[0]] + subs[1..] == subs;
      LayoutOne(subs[0]);
      LayoutLength(subs[1..]);
    }
  }

  /** Reads a count-prefixed array back into its sublists (`i += nl[i] + 1`). */
  function Parse(nl: seq<int>): Option<seq<seq<int>>>
    decreases |nl|
  {
    if |nl| == 0 then Some([])
    else
      var c := nl[0];
      if c < 0 || c > |nl| - 1 then None
      else
        match Parse(nl[c + 1..])
        case None => None
        case Some(rest) => Some([nl[1..c + 1]] + rest)
  }

  /** The layout parses back to the sublists it was made from. */
  lemma {:induction false} ParseLayout(subs: seq<seq<int>>)
    ensures Parse(Layout(subs)) == Some(subs)
  {
    if |subs| > 0 {
      var s := subs[0];
      LayoutAppend([s], subs[1..]);
      assert [s] + subs[1..] == subs;
      LayoutOne(s);
      var nl := Layout(subs);
      assert nl == [|s|] + s + Layout(subs[1..]);
      assert nl[|s| + 1..] == Layout(subs[1..]);
      assert nl[1..|s| + 1] == s;
      ParseLayout(subs[1..]);
    }
  }

  // ---------------------------------------------------------------------------
  // Emission
  // ---------------------------------------------------------------------------

  /** Chains after binning only hold particle indices. */
  lemma WalkIndices(list: seq<int>, j: int)
    requires Linked(list) && j < |list|
    ensures IndicesIn(Walk(list, j), |list|)
  {
  }

  /** One chain step: the entry for `j` (if any) followed by the rest of the chain. */
  lemma HitsStep<P>(ps: seq<P>, check: (P, P) -> bool, i: nat, list: seq<int>, j: int)
    requires i < |ps| && Linked(list) && |list| == |ps| && 0 <= j < |list|
    requires IndicesIn(Walk(list, j), |ps|) && IndicesIn(Walk(list, list[j]), |ps|)
    ensures Hits(ps, check, i, Walk(list, j))
      == (if j != i && check(ps[i], ps[j]) then [j + 1] else []) + Hits(ps, check, i, Walk(list, list[j]))
  {
    assert Walk(list, j) == [j] + Walk(list, list[j]);
    HitsCons(ps, check, i, j, Walk(list, list[j]));
  }

  lemma HitsCons<P>(ps: seq<P>, check: (P, P) -> bool, i: nat, x: int, rest: seq<int>)
    requires i < |ps| && 0 <= x < |ps| && IndicesIn(rest, |ps|)
    ensures IndicesIn([x] + rest, |ps|)
    ensures Hits(ps, check, i, [x] + rest)
      == (if x != i && check(ps[i], ps[x]) then [x + 1] else []) + Hits(ps, check, i, rest)
  {
    ConsParts(x, rest);
    assert IndicesIn([x] + rest, |ps|);
  }

  /** The `while (j >= 0)` walk of one chain, from `j`. */
  method WalkChain<P>(ps: seq<P>, check: (P, P) -> bool, i: nat, list: seq<int>, j0: int)
    returns (got: seq<int>)
    requires i < |ps| && Linked(list) && |list| == |ps| && -1 <= j0 < |list|
    ensures IndicesIn(Walk(list, j0), |ps|)
    ensures got == Hits(ps, check, i, Walk(list, j0))
  {
    WalkIndices(list, j0);
    ghost var total := Hits(ps, check, i, Walk(list, j0));
    got := [];
    var j := j0;
    while j >= 0
      invariant -1 <= j < |list|
      invariant IndicesIn(Walk(list, j), |ps|)
      invariant got + Hits(ps, check, i, Walk(list, j)) == total
      decreases j + 1
    {
      WalkIndices(list, list[j]);
      HitsStep(ps, check, i, list, j);
      var e := if j != i && check(ps[i], ps[j]) then [j + 1] else [];
      AppendAssoc(got, e, Hits(ps, check, i, Walk(list, list[j])));
      got := got + e;
      j := list[j];
    }
  }

  /** The walk over the cells `ivs` of a window, chain by chain. */
  method WalkWindow<P, C(==,!new)>(ps: seq<P>, cells: seq<C>, check: (P, P) -> bool, i: nat,
                                  ivs: seq<C>, head: map<C, int>, list: seq<int>)
    returns (entries: seq<int>)
    requires |cells| == |ps| && i < |ps| && Binned(cells, head, list)
    ensures entries == Flatten(Contributions(ps, cells, check, i, ivs))
  {
    BinLinked(cells, list);
    ghost var parts := Contributions(ps, cells, check, i, ivs);
    entries := [];
    for k := 0 to |ivs|
      invariant entries == Flatten(parts[..k])
    {
      WalkFindsCell(cells, list, ivs[k], |cells|);
      var got := WalkChain(ps, check, i, list, HeadAt(head, ivs[k]));
      FlattenSnoc(parts, k);
      entries := entries + got;
    }
    assert parts[..|ivs|] == parts;
  }

  /** The emission loop of `buildNeighborList` over the merged particles `ps` with
      cells `cells`, given the binning `head`/`list`: for each particle a count slot,
      then one-based indices of the particles found walking the chains of its window
      that are not the particle itself and pass `check`, then the count is written
      into the slot. */
  method Emit(ps: seq<Particle>, cells: seq<Cell>, headBox: Box, n: nat,
              check: (Particle, Particle) -> bool, head: map<Cell, int>, list: seq<int>)
    returns (nl: seq<int>)
    requires |cells| == |ps| && Shaped(cells, headBox) && Binned(cells, head, list)
    ensures nl == Layout(Sublists(ps, cells, headBox, n, check))
  {
    ghost var subs := Sublists(ps, cells, headBox, n, check);
    nl := [];
    for i := 0 to |ps|
      invariant nl == Layout(subs[..i])
    {
      var start := |nl|;
      nl := nl + [0];
      var entries := WalkWindow(ps, cells, check, i, WindowCells(cells, headBox, n, i), head, list);
      nl := nl + entries;
      nl := nl[start := |entries|];
      PatchCount(Layout(subs[..i]), entries);
      LayoutSnoc(subs, i);
    }
    assert subs[..|ps|] == subs;
  }

  /** Writing the count into the slot pushed before the entries. */
  lemma PatchCount(pre: seq<int>, s: seq<int>)
    ensures (pre + [0] + s)[|pre| := |s|] == pre + ([|s|] + s)
  {
  }

  /** The layout of one more sublist. */
  lemma LayoutSnoc(subs: seq<seq<int>>, i: nat)
    requires i < |subs|
    ensures Layout(subs[..i + 1]) == Layout(subs[..i]) + ([|subs[i]|] + subs[i])
  {
    assert subs[..i + 1] == subs[..i] + [subs[i]];
    LayoutAppend(subs[..i], [subs[i]]);
    LayoutOne(subs[i]);
  }

  lemma FlattenSnoc(parts: seq<seq<int>>, k: nat)
    requires k < |parts|
    ensures Flatten(parts[..k + 1]) == Flatten(parts[..k]) + parts[k]
  {
    assert parts[..k + 1] == parts[..k] + [parts[k]];
    FlattenAppend(parts[..k], [parts[k]]);
    assert Flatten([parts[k]]) == parts[k] + Flatten([parts[k]][1..]);
    assert [parts[k]][1..] == [];
  }

  // ---------------------------------------------------------------------------
  // What a sublist holds
  // ---------------------------------------------------------------------------

  lemma {:induction false} HitsMember<P>(ps: seq<P>, check: (P, P) -> bool, i: nat, js: seq<int>, x: int)
    requires i < |ps| && IndicesIn(js, |ps|)
    ensures x in Hits(ps, check, i, js) <==>
      1 <= x <= |ps| && x - 1 in js && x - 1 != i && check(ps[i], ps[x - 1])
  {
    if |js| > 0 {
      HitsMember(ps, check, i, js[1..], x);
      assert js == [js[0]] + js[1..];
    }
  }

  /** Particle `i`'s sublist names (one-based) exactly the other particles that pass
      `check` and lie in a cell of its window: within `n` cells on every axis and
      inside the head box. */
  lemma SublistMember(ps: seq<Particle>, cells: seq<Cell>, headBox: Box, n: nat,
                      check: (Particle, Particle) -> bool, i: nat, x: int)
    requires |cells| == |ps| && Shaped(cells, headBox) && i < |ps|
    ensures x in Sublist(ps, cells, headBox, n, check, i) <==>
      && 1 <= x <= |ps| && x - 1 != i && check(ps[i], ps[x - 1])
      && Contains(Window(cells[i], n, headBox), cells[x - 1])
  {
    var w := Window(cells[i], n, headBox);
    var ivs := BoxCells(w);
    var parts := Contributions(ps, cells, check, i, ivs);
    FlattenMember(parts, x);
    if x in Sublist(ps, cells, headBox, n, check, i) {
      var k :| 0 <= k < |parts| && x in parts[k];
      OccExact(cells, ivs[k], |cells|);
      HitsMember(ps, check, i, Occ(cells, ivs[k], |cells|), x);
      BoxCellsMember(w, ivs[k]);
    }
    if && 1 <= x <= |ps| && x - 1 != i && check(ps[i], ps[x - 1]) && Contains(w, cells[x - 1]) {
      BoxCellsMember(w, cells[x - 1]);
      var k :| 0 <= k < |ivs| && ivs[k] == cells[x - 1];
      OccExact(cells, ivs[k], |cells|);
      HitsMember(ps, check, i, Occ(cells, ivs[k], |cells|), x);
      assert x in parts[k];
    }
  }

  /** Hits from a repetition-free candidate list are repetition-free. */
  lemma {:induction false} HitsDistinct<P>(ps: seq<P>, check: (P, P) -> bool, i: nat, js: seq<int>)
    requires i < |ps| && IndicesIn(js, |ps|) && Distinct(js)
    ensures Distinct(Hits(ps, check, i, js))
  {
    if |js| > 0 {
      var tl := js[1..];
      assert Distinct(tl) by {
        forall a, b | 0 <= a < b < |tl| ensures tl[a] != tl[b] {
          assert tl[a] == js[a + 1] && tl[b] == js[b + 1];
        }
      }
      HitsDistinct(ps, check, i, tl);
      var e: seq<int> := if js[0] != i && check(ps[i], ps[js[0]]) then [js[0] + 1] else [];
      var rest := Hits(ps, check, i, tl);
      assert js[0] !in tl by {
        forall m | 0 <= m < |tl| ensures tl[m] != js[0] {
          assert tl[m] == js[m + 1];
        }
      }
      forall a, b | 0 <= a < |e| && 0 <= b < |rest|
        ensures e[a] != rest[b]
      {
        assert rest[b] in rest;
        HitsMember(ps, check, i, tl, rest[b]);
      }
      DistinctAppend(e, rest);
    }
  }

  /** No partner appears twice in a sublist: the cells of the window are distinct, each
      particle sits in one cell, and each cell's chain lists a particle once. */
  lemma SublistDistinct(ps: seq<Particle>, cells: seq<Cell>, headBox: Box, n: nat,
                        check: (Particle, Particle) -> bool, i: nat)
    requires |cells| == |ps| && Shaped(cells, headBox) && i < |ps|
    ensures Distinct(Sublist(ps, cells, headBox, n, check, i))
  {
    var w := Window(cells[i], n, headBox);
    var ivs := BoxCells(w);
    CellsDistinct(w.lo, w.hi);
    var parts := Contributions(ps, cells, check, i, ivs);
    forall k | 0 <= k < |parts|
      ensures Distinct(parts[k])
    {
      OccExact(cells, ivs[k], |cells|);
      HitsDistinct(ps, check, i, Occ(cells, ivs[k], |cells|));
    }
    forall a, b, x | 0 <= a < b < |parts| && x in parts[a]
      ensures x !in parts[b]
    {
      HitsMember(ps, check, i, Occ(cells, ivs[a], |cells|), x);
      HitsMember(ps, check, i, Occ(cells, ivs[b], |cells|), x);
      OccExact(cells, ivs[a], |cells|);
      OccExact(cells, ivs[b], |cells|);
    }
    FlattenDistinct(parts);
  }

  /** The one-based partners of particle `i`: every other particle that passes `check`
      and lies in a cell of the window of `i`. */
  function Partners(ps: seq<Particle>, cells: seq<Cell>, headBox: Box, n: nat,
                    check: (Particle, Particle) -> bool, i: nat): set<int>
    requires |cells| == |ps| && Shaped(cells, headBox) && i < |ps|
  {
    set x | 1 <= x <= |ps| && IsPartner(ps, cells, headBox, n, check, i, x)
  }

  predicate IsPartner(ps: seq<Particle>, cells: seq<Cell>, headBox: Box, n: nat,
                      check: (Particle, Particle) -> bool, i: nat, x: int)
    requires |cells| == |ps| && Shaped(cells, headBox) && i < |ps| && 1 <= x <= |ps|
  {
    x - 1 != i && check(ps[i], ps[x - 1]) && Contains(Window(cells[i], n, headBox), cells[x - 1])
  }

  /** The count written before particle `i`'s sublist is its number of partners: each
      partner is listed, once, and nothing else is. */
  lemma SublistCount(ps: seq<Particle>, cells: seq<Cell>, headBox: Box, n: nat,
                     check: (Particle, Particle) -> bool, i: nat)
    requires |cells| == |ps| && Shaped(cells, headBox) && i < |ps|
    ensures |Sublist(ps, cells, headBox, n, check, i)| == |Partners(ps, cells, headBox, n, check, i)|
  {
    var sl := Sublist(ps, cells, headBox, n, check, i);
    SublistDistinct(ps, cells, headBox, n, check, i);
    DistinctCard(sl);
    var pt := Partners(ps, cells, headBox, n, check, i);
    forall x | x in Elements(sl) ensures x in pt {
      SublistMember(ps, cells, headBox, n, check, i, x);
    }
    forall x | x in pt ensures x in Elements(sl) {
      SublistMember(ps, cells, headBox, n, check, i, x);
    }
    assert Elements(sl) == pt;
  }

  // ---------------------------------------------------------------------------
  // Sorting every sublist
  // ---------------------------------------------------------------------------

  predicate Ascending(s: seq<int>) {
    forall a, b :: 0 <= a < b < |s| ==> s[a] <= s[b]
  }

  /** Inserts `x` before the first entry it does not exceed. */
  function Insert(x: int, s: seq<int>): (r: seq<int>)
    ensures |r| == |s| + 1
  {
    if |s| == 0 then [x]
    else if x <= s[0] then [x] + s
    else [s[0]] + Insert(x, s[1..])
  }

  /** Inserting into an ascending list keeps it ascending and adds exactly `x`. */
  lemma {:induction false} InsertSorted(x: int, s: seq<int>)
    requires Ascending(s)
    ensures Ascending(Insert(x, s))
    ensures multiset(Insert(x, s)) == multiset(s) + multiset{x}
    ensures Insert(x, s)[0] == (if |s| == 0 || x <= s[0] then x else s[0])
  {
    if |s| > 0 && x > s[0] {
      var t := Insert(x, s[1..]);
      InsertSorted(x, s[1..]);
      assert s == [s[0]] + s[1..];
      assert s[0] <= t[0];
      ConsAscending(s[0], t);
    }
  }

  lemma ConsAscending(h: int, t: seq<int>)
    requires Ascending(t) && (|t| > 0 ==> h <= t[0])
    ensures Ascending([h] + t)
  {
    var r := [h] + t;
    forall a, b | 0 <= a < b < |r|
      ensures r[a] <= r[b]
    {
      if a > 0 {
        assert r[a] == t[a - 1] && r[b] == t[b - 1];
      } else {
        assert r[b] == t[b - 1] && t[0] <= t[b - 1];
      }
    }
  }

  /** `std::sort` on a range of indices, as insertion sort. */
  function SortInts(s: seq<int>): (r: seq<int>)
    ensures |r| == |s|
  {
    if |s| == 0 then [] else Insert(s[0], SortInts(s[1..]))
  }

  /** The sorted copy is ascending and holds the same entries, each as often. */
  lemma {:induction false} SortIntsSorted(s: seq<int>)
    ensures Ascending(SortInts(s))
    ensures multiset(SortInts(s)) == multiset(s)
  {
    if |s| > 0 {
      SortIntsSorted(s[1..]);
      InsertSorted(s[0], SortInts(s[1..]));
      assert SortInts(s) == Insert(s[0], SortInts(s[1..]));
      assert s == [s[0]] + s[1..];
    }
  }

  /** Every sublist sorted in place: same length (so the count slots stay where they
      are), same entries, ascending. */
  function SortAll(subs: seq<seq<int>>): (r: seq<seq<int>>)
    ensures |r| == |subs|
    ensures forall i :: 0 <= i < |r| ==>
      |r[i]| == |subs[i]| && multiset(r[i]) == multiset(subs[i]) && Ascending(r[i])
  {
    assert forall i :: 0 <= i < |subs| ==>
      multiset(SortInts(subs[i])) == multiset(subs[i]) && Ascending(SortInts(subs[i])) by {
      forall i | 0 <= i < |subs| {
        SortIntsSorted(subs[i]);
      }
    }
    seq(|subs|, i requires 0 <= i < |subs| => SortInts(subs[i]))
  }

  /** With `r` framed as `pre`, count `|s|`, entries `s`, then `post`, the count slot
      is at `|pre|` and the entries follow it. */
  lemma SlotAt(r: seq<int>, pre: seq<int>, s: seq<int>, post: seq<int>)
    requires r == pre + (([|s|] + s) + post)
    ensures |pre| < |r| && r[|pre|] == |s| && |pre| + 1 + |s| <= |r|
    ensures r[|pre| + 1..|pre| + 1 + |s|] == s
  {
  }

  /** Replacing those entries by `t` of the same length changes nothing else. */
  lemma SpliceAt(r: seq<int>, pre: seq<int>, s: seq<int>, t: seq<int>, post: seq<int>)
    requires r == pre + (([|s|] + s) + post) && |t| == |s|
    ensures |pre| + 1 + |s| <= |r|
    ensures r[..|pre| + 1] + t + r[|pre| + 1 + |s|..] == (pre + ([|s|] + t)) + post
  {
    assert r[..|pre| + 1] == pre + [|s|];
    assert r[|pre| + 1 + |s|..] == post;
  }

  lemma LayoutCons(subs: seq<seq<int>>)
    requires |subs| > 0
    ensures Layout(subs) == ([|subs[0]|] + subs[0]) + Layout(subs[1..])
  {
    assert Framed(subs)[1..] == Framed(subs[1..]);
  }

  /** The layout of the sublists from `k` on: sublist `k` framed, then the rest. */
  lemma LayoutFrom(subs: seq<seq<int>>, k: nat)
    requires k <= |subs|
    ensures k == |subs| ==> Layout(subs[k..]) == []
    ensures k < |subs| ==> Layout(subs[k..]) == ([|subs[k]|] + subs[k]) + Layout(subs[k + 1..])
  {
    if k < |subs| {
      LayoutCons(subs[k..]);
      assert subs[k..][0] == subs[k] && subs[k..][1..] == subs[k + 1..];
    } else {
      assert subs[k..] == [];
    }
  }

  /** The optional sorting pass: `i` jumps from count slot to count slot (`i += nl[i] + 1`)
      and the entries behind each slot are sorted. */
  method SortSublists(nl: seq<int>, ghost subs: seq<seq<int>>) returns (r: seq<int>)
    requires nl == Layout(subs)
    ensures r == Layout(SortAll(subs))
  {
    ghost var sorted := SortAll(subs);
    r := nl;
    var i := 0;
    ghost var k := 0;
    assert subs[0..] == subs;
    while i < |r|
      invariant 0 <= k <= |subs|
      invariant r == Layout(sorted[..k]) + Layout(subs[k..])
      invariant i == |Layout(sorted[..k])|
      decreases |subs| - k
    {
      LayoutFrom(subs, k);
      LayoutSnoc(sorted, k);
      r, i := SortSlot(r, i, Layout(sorted[..k]), subs[k], Layout(subs[k + 1..]));
      k := k + 1;
    }
    LayoutFrom(subs, k);
    assert sorted[..|subs|] == sorted;
  }

  /** Sorts the entries behind the count slot at `i` and moves `i` to the next slot:
      with `r` framed as `pre`, count `|s|`, entries `s`, then `post`, the entries become
      `SortInts(s)` and nothing else changes. */
  method SortSlot(r: seq<int>, i: nat, ghost pre: seq<int>, ghost s: seq<int>, ghost post: seq<int>)
    returns (r': seq<int>, i': nat)
    requires r == pre + (([|s|] + s) + post) && i == |pre|
    ensures r' == (pre + ([|s|] + SortInts(s))) + post
    ensures i' == |pre| + 1 + |s|
  {
    SlotAt(r, pre, s, post);
    var m := r[i];
    var t := SortInts(r[i + 1..i + 1 + m]);
    SpliceAt(r, pre, s, t, post);
    r' := r[..i + 1] + t + r[i + 1 + m..];
    i' := i + m + 1;
  }

  // ---------------------------------------------------------------------------
  // One tile
  // ---------------------------------------------------------------------------

  /** The cells `Index` assigns to the merged particles all lie in the head box: the
      tile box grown by the halo width (the source reads `head(cell)` unchecked). */
  predicate CellsInBox(cells: seq<Cell>, headBox: Box) {
    forall i :: 0 <= i < |cells| ==> Contains(headBox, cells[i])
  }

  function CellsOf(ps: seq<Particle>, cellOf: Particle -> Cell): (r: seq<Cell>)
    ensures |r| == |ps|
  {
    seq(|ps|, i requires 0 <= i < |ps| => cellOf(ps[i]))
  }

  /** The neighbour list of one tile (`neighbor_list[index]`): merge, bin, emit and
      optionally sort. */
  method BuildTile(sc: Schema, particles: seq<Particle>, nbytes: seq<byte>, tileBox: Box, n: nat,
                   cellOf: Particle -> Cell, check: (Particle, Particle) -> bool, sort: bool)
    returns (nl: seq<int>)
    requires |tileBox.lo| == |tileBox.hi|
    requires CellsInBox(CellsOf(Merge(sc, particles, nbytes), cellOf), Grow(tileBox, n))
    ensures var ps := Merge(sc, particles, nbytes);
      var subs := Sublists(ps, CellsOf(ps, cellOf), Grow(tileBox, n), n, check);
      nl == Layout(if sort then SortAll(subs) else subs)
  {
    var ps := Merge(sc, particles, nbytes);
    var headBox := Grow(tileBox, n);
    var cells := CellsOf(ps, cellOf);
    assert Shaped(cells, headBox);
    var head, list := Bin(cells);
    nl := Emit(ps, cells, headBox, n, check, head, list);
    if sort {
      nl := SortSublists(nl, Sublists(ps, cells, headBox, n, check));
    }
  }
}
