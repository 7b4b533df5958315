/** The halo exchange of `NeighborParticleContainer`: per-tile classification of the
    particles near a tile edge, packing of their periodic-shifted images for the tiles
    that own the neighbouring cells, the replay caches, and the fill / update / clear
    cycle. The process boundary is the framing of module Framing; the transport itself
    is a parameter (the buffers received, in order of sending process). */
module Halo {
  import opened Wrappers
  import opened Bytes
  import opened Boxes
  import opened Buffers
  import opened Records
  import opened LevelMask
  import opened Seqs
  import Classify
  import Framing

  // ---------------------------------------------------------------------------
  // Geometry and the periodic shift
  // ---------------------------------------------------------------------------

  /** The index-space domain, the periodic axes and the physical domain length per axis
      (positions are integers in the unit of the model). */
  datatype Geometry = Geometry(domain: Box, periodic: seq<bool>, length: seq<int>)

  predicate GeometryValid(g: Geometry, dim: nat) {
    |g.domain.lo| == dim && |g.domain.hi| == dim && |g.periodic| == dim && |g.length| == dim
  }

  predicate AnyPeriodic(g: Geometry) {
    exists d :: 0 <= d < |g.periodic| && g.periodic[d]
  }

  /** The copy of `p` sent to `cell`: on every periodic axis where the cell lies below
      the domain the position moves up by one domain length, above it down by one. */
  function ApplyPeriodicShift(g: Geometry, p: Particle, cell: Cell): (r: Particle)
    requires GeometryValid(g, |p.pos|) && |cell| == |p.pos|
    ensures r.rdata == p.rdata && r.id == p.id && r.cpu == p.cpu && r.idata == p.idata
    ensures |r.pos| == |p.pos|
    ensures forall d :: 0 <= d < |p.pos| && !g.periodic[d] ==> r.pos[d] == p.pos[d]
    ensures forall d :: 0 <= d < |p.pos| && g.domain.lo[d] <= cell[d] <= g.domain.hi[d] ==>
      r.pos[d] == p.pos[d]
    ensures forall d :: 0 <= d < |p.pos| && g.periodic[d] && cell[d] < g.domain.lo[d] ==>
      r.pos[d] == p.pos[d] + g.length[d]
    ensures forall d :: (0 <= d < |p.pos| && g.periodic[d] && g.domain.lo[d] <= cell[d] && cell[d] > g.domain.hi[d]) ==>
      r.pos[d] == p.pos[d] - g.length[d]
  {
    if !AnyPeriodic(g) then p
    else
      p.(pos := seq(|p.pos|, d requires 0 <= d < |p.pos| =>
        if !g.periodic[d] then p.pos[d]
        else if cell[d] < g.domain.lo[d] then p.pos[d] + g.length[d]
        else if cell[d] > g.domain.hi[d] then p.pos[d] - g.length[d]
        else p.pos[d]))
  }

  /** Without periodic axes, or for a cell inside the domain, the copy is the particle. */
  lemma ShiftIdentity(g: Geometry, p: Particle, cell: Cell)
    requires GeometryValid(g, |p.pos|) && |cell| == |p.pos|
    requires !AnyPeriodic(g) || Contains(g.domain, cell)
    ensures ApplyPeriodicShift(g, p, cell) == p
  {
    var r := ApplyPeriodicShift(g, p, cell);
    forall d | 0 <= d < |p.pos| ensures r.pos[d] == p.pos[d] {
      if g.periodic[d] {
        assert AnyPeriodic(g);
      }
    }
  }

  /** Shifting towards a ghost cell and back towards its mirror image across the domain
      restores the position on every periodic axis. */
  lemma ShiftThereAndBack(g: Geometry, p: Particle, cell: Cell, back: Cell)
    requires GeometryValid(g, |p.pos|) && |cell| == |p.pos| && |back| == |p.pos|
    requires forall d :: 0 <= d < |p.pos| ==> g.domain.lo[d] <= g.domain.hi[d]
    requires forall d :: 0 <= d < |p.pos| ==>
      (cell[d] < g.domain.lo[d] <==> back[d] > g.domain.hi[d])
      && (cell[d] > g.domain.hi[d] <==> back[d] < g.domain.lo[d])
    ensures ApplyPeriodicShift(g, ApplyPeriodicShift(g, p, cell), back) == p
  {
    var r := ApplyPeriodicShift(g, p, cell);
    var s := ApplyPeriodicShift(g, r, back);
    forall d | 0 <= d < |p.pos| ensures s.pos[d] == p.pos[d] {
    }
  }

  // ---------------------------------------------------------------------------
  // The container's view
  // ---------------------------------------------------------------------------

  /** What `NeighborParticleContainer` consults: the particle layout, the geometry, the
      halo width `num_neighbor_cells`, the filled owner mask, the distribution map
      (grid -> process), this process, and the cell index of a particle (`Index`). */
  datatype Context = Context(
    schema: Schema,
    geom: Geometry,
    n: nat,
    mask: Cell -> MaskEntry,
    owner: int -> int,
    myProc: int,
    cellOf: Particle -> Cell)

  ghost predicate ContextValid(ctx: Context) {
    GeometryValid(ctx.geom, ctx.schema.dim)
    && forall p :: |ctx.cellOf(p)| == ctx.schema.dim
  }

  /** A tile of a local grid: its (grid, tile) index, its box and its particles. */
  datatype Tile = Tile(index: PairIndex, box: Box, particles: seq<Particle>)

  predicate TileValid(ctx: Context, t: Tile) {
    |t.box.lo| == ctx.schema.dim && |t.box.hi| == ctx.schema.dim
    && forall i :: 0 <= i < |t.particles| ==> Sized(ctx.schema, t.particles[i])
  }

  predicate TilesValid(ctx: Context, tiles: seq<Tile>) {
    forall j :: 0 <= j < |tiles| ==> TileValid(ctx, tiles[j])
  }

  predicate DistinctIndices(tiles: seq<Tile>) {
    forall j, k :: 0 <= j < k < |tiles| ==> tiles[j].index != tiles[k].index
  }

  // ---------------------------------------------------------------------------
  // Packing (`packNeighborParticle`)
  // ---------------------------------------------------------------------------

  /** Sorted queue of buffers for other processes (`NeighborCommMap`). */
  type Queue = l: CommList | Sorted(l) witness []

  /** The neighbour buffers of this process's tiles and the queue for the others. */
  datatype Outbox = Outbox(local: Store, remote: Queue)

  /** Destination of a copy sent to `cell`: owning process and (grid, tile), if any. */
  datatype Route = Route(proc: int, dst: PairIndex)

  function RouteOf(ctx: Context, cell: Cell): (r: Option<Route>)
    ensures r.None? <==> ctx.mask(cell).grid < 0
    ensures r.Some? ==> r.value.dst == PairIndex(ctx.mask(cell).grid, ctx.mask(cell).tile)
    ensures r.Some? ==> r.value.proc == ctx.owner(ctx.mask(cell).grid)
  {
    var m := ctx.mask(cell);
    if m.grid < 0 then None else Some(Route(ctx.owner(m.grid), PairIndex(m.grid, m.tile)))
  }

  /** The bytes waiting for tile `k` of process `q`. */
  function Inbound(ctx: Context, ob: Outbox, q: int, k: PairIndex): seq<byte> {
    if q == ctx.myProc then Get(ob.local, k) else Lookup(ob.remote, CommTag(q, k.grid, k.tile))
  }

  /** No queued tag names this process. */
  predicate NoSelf(ctx: Context, ob: Outbox) {
    forall t :: t in Tags(ob.remote) ==> t.proc != ctx.myProc
  }

  /** The copy of `p` sent towards `cell`; its record is `pdata_size` bytes. */
  function Replica(ctx: Context, p: Particle, cell: Cell): (r: Particle)
    requires ContextValid(ctx) && Sized(ctx.schema, p) && |cell| == ctx.schema.dim
    ensures Sized(ctx.schema, r) && |Encode(r)| == RecordSize(ctx.schema)
  {
    EncodeSize(ctx.schema, ApplyPeriodicShift(ctx.geom, p, cell));
    ApplyPeriodicShift(ctx.geom, p, cell)
  }

  /** Appends the periodic-shifted record of `p` to the buffer of the tile owning `cell`:
      locally when that tile is on this process, else under the queue tag. */
  function PackNeighborParticle(ctx: Context, ob: Outbox, cell: Cell, p: Particle): (r: Outbox)
    requires ContextValid(ctx) && Sized(ctx.schema, p) && |cell| == ctx.schema.dim
    ensures ctx.mask(cell).grid < 0 ==> r == ob
    ensures ctx.owner(ctx.mask(cell).grid) == ctx.myProc ==> r.remote == ob.remote
    ensures ctx.owner(ctx.mask(cell).grid) != ctx.myProc ==> r.local == ob.local
    ensures NoSelf(ctx, ob) ==> NoSelf(ctx, r)
  {
    var m := ctx.mask(cell);
    if m.grid < 0 then ob
    else
      var who := ctx.owner(m.grid);
      var bytes := Encode(Replica(ctx, p, cell));
      if who == ctx.myProc then ob.(local := AppendTo(ob.local, PairIndex(m.grid, m.tile), bytes))
      else ob.(remote := AppendAt(ob.remote, CommTag(who, m.grid, m.tile), bytes))
  }

  /** The copy of `p` for `cell` if its route is tile `k` of process `q`, else nothing. */
  function RoutedTo(ctx: Context, p: Particle, cell: Cell, q: int, k: PairIndex): (r: seq<Particle>)
    requires ContextValid(ctx) && Sized(ctx.schema, p) && |cell| == ctx.schema.dim
    ensures |r| <= 1
    ensures |r| == 1 <==> RouteOf(ctx, cell) == Some(Route(q, k))
    ensures forall m :: 0 <= m < |r| ==> Sized(ctx.schema, r[m])
  {
    if RouteOf(ctx, cell) == Some(Route(q, k)) then [Replica(ctx, p, cell)] else []
  }

  /** Packing adds the record, `pdata_size` bytes, to exactly the buffer its route names
      and nowhere else. */
  lemma PackRoutesRecord(ctx: Context, ob: Outbox, cell: Cell, p: Particle, q: int, k: PairIndex)
    requires ContextValid(ctx) && Sized(ctx.schema, p) && |cell| == ctx.schema.dim
    ensures Inbound(ctx, PackNeighborParticle(ctx, ob, cell, p), q, k)
      == Inbound(ctx, ob, q, k) + EncodeAll(RoutedTo(ctx, p, cell, q, k))
    ensures |Inbound(ctx, PackNeighborParticle(ctx, ob, cell, p), q, k)|
      == |Inbound(ctx, ob, q, k)| + |RoutedTo(ctx, p, cell, q, k)| * RecordSize(ctx.schema)
  {
    var m := ctx.mask(cell);
    var rs := RoutedTo(ctx, p, cell, q, k);
    if |rs| == 1 {
      assert rs[1..] == [];
      assert EncodeAll(rs) == Encode(Replica(ctx, p, cell));
    }
    if m.grid >= 0 {
      var who := ctx.owner(m.grid);
      var bytes := Encode(Replica(ctx, p, cell));
      if who != ctx.myProc {
        AppendAtLookup(ob.remote, CommTag(who, m.grid, m.tile), bytes, CommTag(q, k.grid, k.tile));
      }
    }
  }

  // ---------------------------------------------------------------------------
  // Caching (`cacheNeighborParticle`)
  // ---------------------------------------------------------------------------

  /** `buffer_id_cache` and `buffer_cell_cache`, keyed by source tile. */
  datatype Caches = Caches(ids: map<PairIndex, seq<int>>, cells: map<PairIndex, seq<Cell>>)

  const NoCaches := Caches(map[], map[])

  function CachedIds(c: Caches, k: PairIndex): seq<int> {
    if k in c.ids then c.ids[k] else []
  }

  function CachedCells(c: Caches, k: PairIndex): seq<Cell> {
    if k in c.cells then c.cells[k] else []
  }

  /** Every tile's id cache and cell cache have the same length. */
  ghost predicate Aligned(c: Caches) {
    forall k :: |CachedIds(c, k)| == |CachedCells(c, k)|
  }

  /** Records (particle index, neighbour cell) under the source tile when the cell has an
      owner; cells without one are not cached. */
  function CacheNeighborParticle(mask: Cell -> MaskEntry, c: Caches, src: PairIndex, i: int, cell: Cell)
    : (r: Caches)
    ensures mask(cell).grid < 0 ==> r == c
    ensures mask(cell).grid >= 0 ==>
      CachedIds(r, src) == CachedIds(c, src) + [i] && CachedCells(r, src) == CachedCells(c, src) + [cell]
    ensures forall k :: k != src ==> CachedIds(r, k) == CachedIds(c, k) && CachedCells(r, k) == CachedCells(c, k)
    ensures Aligned(c) ==> Aligned(r)
  {
    if mask(cell).grid < 0 then c
    else Caches(c.ids[src := CachedIds(c, src) + [i]], c.cells[src := CachedCells(c, src) + [cell]])
  }

  // ---------------------------------------------------------------------------
  // Candidates of a tile (the classification loop of `fillNeighbors`)
  // ---------------------------------------------------------------------------

  /** One (particle index, neighbour cell) pair the classification produces. */
  datatype Candidate = Candidate(i: nat, cell: Cell)

  predicate CandidatesValid(ctx: Context, t: Tile, xs: seq<Candidate>) {
    forall k :: 0 <= k < |xs| ==> xs[k].i < |t.particles| && |xs[k].cell| == ctx.schema.dim
  }

  /** The neighbour cells of particle `i`, in the order faces, edges, vertex. */
  function ParticleCandidates(ctx: Context, t: Tile, i: nat): (r: seq<Candidate>)
    requires ContextValid(ctx) && TileValid(ctx, t) && i < |t.particles|
    ensures CandidatesValid(ctx, t, r)
    ensures forall k :: 0 <= k < |r| ==> r[k].i == i
  {
    var cells := Classify.NeighborCells(ctx.cellOf(t.particles[i]), t.box, ctx.n);
    seq(|cells|, k requires 0 <= k < |cells| => Candidate(i, cells[k]))
  }

  /** The candidates of the first `m` particles of the tile, in particle order. */
  function TileCandidates(ctx: Context, t: Tile, m: nat): (r: seq<Candidate>)
    requires ContextValid(ctx) && TileValid(ctx, t) && m <= |t.particles|
    ensures CandidatesValid(ctx, t, r)
    ensures forall k :: 0 <= k < |r| ==> r[k].i < m
  {
    if m == 0 then [] else TileCandidates(ctx, t, m - 1) + ParticleCandidates(ctx, t, m - 1)
  }

  function AllCandidates(ctx: Context, t: Tile): (r: seq<Candidate>)
    requires ContextValid(ctx) && TileValid(ctx, t)
    ensures CandidatesValid(ctx, t, r)
  {
    TileCandidates(ctx, t, |t.particles|)
  }

  /** The candidate if its cell has an owner, else nothing. */
  function Own(ctx: Context, x: Candidate): (r: seq<Candidate>)
    ensures r == [x] <==> ctx.mask(x.cell).grid >= 0
    ensures r == [] <==> ctx.mask(x.cell).grid < 0
  {
    if ctx.mask(x.cell).grid >= 0 then [x] else []
  }

  /** The candidates whose cell has an owner. */
  function Kept(ctx: Context, xs: seq<Candidate>): (r: seq<Candidate>)
    ensures |r| <= |xs|
  {
    if |xs| == 0 then [] else Own(ctx, xs[0]) + Kept(ctx, xs[1..])
  }

  /** The kept candidates are valid candidates of the tile, each with an owned cell. */
  lemma {:induction false} KeptValid(ctx: Context, t: Tile, xs: seq<Candidate>)
    requires CandidatesValid(ctx, t, xs)
    ensures CandidatesValid(ctx, t, Kept(ctx, xs))
    ensures forall k :: 0 <= k < |Kept(ctx, xs)| ==> ctx.mask(Kept(ctx, xs)[k].cell).grid >= 0
  {
    if |xs| > 0 {
      KeptValid(ctx, t, xs[1..]);
    }
  }

  function IdsOf(xs: seq<Candidate>): (r: seq<int>)
    ensures |r| == |xs|
  {
    if |xs| == 0 then [] else [xs[0].i as int] + IdsOf(xs[1..])
  }

  function CellsOf(xs: seq<Candidate>): (r: seq<Cell>)
    ensures |r| == |xs|
  {
    if |xs| == 0 then [] else [xs[0].cell] + CellsOf(xs[1..])
  }

  lemma {:induction false} IdsCellsIndex(xs: seq<Candidate>)
    ensures forall k :: 0 <= k < |xs| ==> IdsOf(xs)[k] == xs[k].i && CellsOf(xs)[k] == xs[k].cell
  {
    if |xs| > 0 {
      IdsCellsIndex(xs[1..]);
    }
  }

  // ---------------------------------------------------------------------------
  // fillNeighbors
  // ---------------------------------------------------------------------------

  datatype Work = Work(caches: Caches, out: Outbox)

  /** Cache, then pack, one candidate of tile `t`. */
  function FillStep(ctx: Context, t: Tile, w: Work, x: Candidate): Work
    requires ContextValid(ctx) && TileValid(ctx, t)
    requires x.i < |t.particles| && |x.cell| == ctx.schema.dim
  {
    Work(CacheNeighborParticle(ctx.mask, w.caches, t.index, x.i, x.cell),
         PackNeighborParticle(ctx, w.out, x.cell, t.particles[x.i]))
  }

  function FillSteps(ctx: Context, t: Tile, w: Work, xs: seq<Candidate>): (r: Work)
    requires ContextValid(ctx) && TileValid(ctx, t) && CandidatesValid(ctx, t, xs)
    ensures Aligned(w.caches) ==> Aligned(r.caches)
    ensures NoSelf(ctx, w.out) ==> NoSelf(ctx, r.out)
    ensures forall k :: k != t.index ==>
      CachedIds(r.caches, k) == CachedIds(w.caches, k) && CachedCells(r.caches, k) == CachedCells(w.caches, k)
    decreases |xs|
  {
    if |xs| == 0 then w else FillSteps(ctx, t, FillStep(ctx, t, w, xs[0]), xs[1..])
  }

  /** Runs the classification of every tile in order. */
  function FillTiles(ctx: Context, tiles: seq<Tile>, w: Work): (r: Work)
    requires ContextValid(ctx) && TilesValid(ctx, tiles)
    ensures Aligned(w.caches) ==> Aligned(r.caches)
    ensures NoSelf(ctx, w.out) ==> NoSelf(ctx, r.out)
    ensures forall k :: (forall j :: 0 <= j < |tiles| ==> tiles[j].index != k) ==>
      CachedIds(r.caches, k) == CachedIds(w.caches, k) && CachedCells(r.caches, k) == CachedCells(w.caches, k)
    decreases |tiles|
  {
    if |tiles| == 0 then w
    else
      var w' := FillSteps(ctx, tiles[0], w, AllCandidates(ctx, tiles[0]));
      FillTiles(ctx, tiles[1..], w')
  }

  /** The neighbour buffers of the local tiles and the two caches. */
  datatype Level = Level(neighbors: Store, caches: Caches)

  /** The outcome of one exchange: the new level state and the buffer sent to each
      other process. */
  datatype Round = Round(level: Level, sends: map<int, seq<byte>>)

  /** `fillNeighbors`: classify, cache and pack every particle near a tile edge, frame the
      queue per process, then unpack the buffers `incoming` received from the others. */
  function FillNeighbors(ctx: Context, tiles: seq<Tile>, lv: Level, incoming: seq<seq<byte>>): (r: Result<Round>)
    requires ContextValid(ctx) && TilesValid(ctx, tiles)
    ensures r.Success? && Aligned(lv.caches) ==> Aligned(r.value.level.caches)
    ensures r.Success? ==> ctx.myProc !in r.value.sends
  {
    var w := FillTiles(ctx, tiles, Work(lv.caches, Outbox(lv.neighbors, [])));
    var nb :- Framing.UnpackAll(w.out.local, incoming);
    Success(Round(Level(nb, w.caches), Framing.SendData(w.out.remote)))
  }

  // ---------------------------------------------------------------------------
  // updateNeighbors and clearNeighbors
  // ---------------------------------------------------------------------------

  /** Replay arguments for tile `t`: as many cells as indices, every index names a
      particle of the tile, every cell has the dimension of the problem. */
  predicate ReplayArgs(ctx: Context, t: Tile, ids: seq<int>, cells: seq<Cell>) {
    |ids| == |cells|
    && (forall k :: 0 <= k < |ids| ==> 0 <= ids[k] < |t.particles|)
    && (forall k :: 0 <= k < |cells| ==> |cells[k]| == ctx.schema.dim)
  }

  /** The caches of every tile are valid replay arguments for it. */
  predicate ReplayValid(ctx: Context, tiles: seq<Tile>, c: Caches) {
    forall j :: 0 <= j < |tiles| ==>
      ReplayArgs(ctx, tiles[j], CachedIds(c, tiles[j].index), CachedCells(c, tiles[j].index))
  }

  /** Packs the current particle `ids[k]` towards `cells[k]` for each cache entry. */
  function Replay(ctx: Context, t: Tile, ob: Outbox, ids: seq<int>, cells: seq<Cell>): (r: Outbox)
    requires ContextValid(ctx) && TileValid(ctx, t) && ReplayArgs(ctx, t, ids, cells)
    ensures NoSelf(ctx, ob) ==> NoSelf(ctx, r)
    decreases |ids|
  {
    if |ids| == 0 then ob
    else Replay(ctx, t, PackNeighborParticle(ctx, ob, cells[0], t.particles[ids[0]]), ids[1..], cells[1..])
  }

  function UpdateTiles(ctx: Context, tiles: seq<Tile>, c: Caches, ob: Outbox): (r: Outbox)
    requires ContextValid(ctx) && TilesValid(ctx, tiles) && ReplayValid(ctx, tiles, c)
    ensures NoSelf(ctx, ob) ==> NoSelf(ctx, r)
    decreases |tiles|
  {
    if |tiles| == 0 then ob
    else
      var k := tiles[0].index;
      var ob' := Replay(ctx, tiles[0], ob, CachedIds(c, k), CachedCells(c, k));
      assert ReplayValid(ctx, tiles[1..], c) by {
        forall j | 0 <= j < |tiles| - 1 ensures tiles[1..][j] == tiles[j + 1] { }
      }
      UpdateTiles(ctx, tiles[1..], c, ob')
  }

  /** `updateNeighbors`: drop the neighbour buffers and re-pack, from the caches, the
      current data of the particles recorded there, then exchange as in the fill. The
      caches are kept. */
  function UpdateNeighbors(ctx: Context, tiles: seq<Tile>, lv: Level, incoming: seq<seq<byte>>): (r: Result<Round>)
    requires ContextValid(ctx) && TilesValid(ctx, tiles) && ReplayValid(ctx, tiles, lv.caches)
    ensures r.Success? ==> r.value.level.caches == lv.caches
    ensures r.Success? ==> ctx.myProc !in r.value.sends
  {
    var ob := UpdateTiles(ctx, tiles, lv.caches, Outbox(map[], []));
    var nb :- Framing.UnpackAll(ob.local, incoming);
    Success(Round(Level(nb, lv.caches), Framing.SendData(ob.remote)))
  }

  /** `clearNeighbors`: the neighbour buffers and both caches become empty. */
  function ClearNeighbors(lv: Level): (r: Level)
    ensures forall k :: Get(r.neighbors, k) == [] && CachedIds(r.caches, k) == [] && CachedCells(r.caches, k) == []
  {
    Level(map[], NoCaches)
  }

  // ---------------------------------------------------------------------------
  // Properties of the cycle
  // ---------------------------------------------------------------------------

  /** Packing a run of candidates, without caching. */
  function PackAll(ctx: Context, t: Tile, ob: Outbox, xs: seq<Candidate>): (r: Outbox)
    requires ContextValid(ctx) && TileValid(ctx, t) && CandidatesValid(ctx, t, xs)
    decreases |xs|
  {
    if |xs| == 0 then ob
    else PackAll(ctx, t, PackNeighborParticle(ctx, ob, xs[0].cell, t.particles[xs[0].i]), xs[1..])
  }

  /** The copies, in candidate order, whose route is tile `k` of process `q`. */
  function RecordsTo(ctx: Context, t: Tile, xs: seq<Candidate>, q: int, k: PairIndex): (r: seq<Particle>)
    requires ContextValid(ctx) && TileValid(ctx, t) && CandidatesValid(ctx, t, xs)
    ensures forall m :: 0 <= m < |r| ==> Sized(ctx.schema, r[m])
    decreases |xs|
  {
    if |xs| == 0 then []
    else RoutedTo(ctx, t.particles[xs[0].i], xs[0].cell, q, k) + RecordsTo(ctx, t, xs[1..], q, k)
  }

  /** Each destination buffer grows by the records of exactly the copies routed to it,
      in order. */
  lemma {:induction false} PackAllInbound(ctx: Context, t: Tile, ob: Outbox, xs: seq<Candidate>, q: int, k: PairIndex)
    requires ContextValid(ctx) && TileValid(ctx, t) && CandidatesValid(ctx, t, xs)
    ensures Inbound(ctx, PackAll(ctx, t, ob, xs), q, k) == Inbound(ctx, ob, q, k) + EncodeAll(RecordsTo(ctx, t, xs, q, k))
    decreases |xs|
  {
    if |xs| > 0 {
      var x := xs[0];
      var p := t.particles[x.i];
      var ob1 := PackNeighborParticle(ctx, ob, x.cell, p);
      PackRoutesRecord(ctx, ob, x.cell, p, q, k);
      PackAllInbound(ctx, t, ob1, xs[1..], q, k);
      assert PackAll(ctx, t, ob, xs) == PackAll(ctx, t, ob1, xs[1..]);
      var head := RoutedTo(ctx, p, x.cell, q, k);
      var rest := RecordsTo(ctx, t, xs[1..], q, k);
      EncodeAllAppend(head, rest);
      AppendAssoc(Inbound(ctx, ob, q, k), EncodeAll(head), EncodeAll(rest));
    }
  }

  lemma {:induction false} IdsCellsAppend(a: seq<Candidate>, b: seq<Candidate>)
    ensures IdsOf(a + b) == IdsOf(a) + IdsOf(b)
    ensures CellsOf(a + b) == CellsOf(a) + CellsOf(b)
  {
    if |a| > 0 {
      assert (a + b)[1..] == a[1..] + b;
      IdsCellsAppend(a[1..], b);
    } else {
      assert a + b == b;
    }
  }

  /** One fill step caches the candidate exactly when its cell has an owner. */
  lemma FillStepCaches(ctx: Context, t: Tile, w: Work, x: Candidate)
    requires ContextValid(ctx) && TileValid(ctx, t)
    requires x.i < |t.particles| && |x.cell| == ctx.schema.dim
    ensures CachedIds(FillStep(ctx, t, w, x).caches, t.index) == CachedIds(w.caches, t.index) + IdsOf(Own(ctx, x))
    ensures CachedCells(FillStep(ctx, t, w, x).caches, t.index) == CachedCells(w.caches, t.index) + CellsOf(Own(ctx, x))
  {
    assert [x][1..] == [];
  }

  /** The fill steps of a tile pack what packing alone would. */
  lemma {:induction false} FillStepsOut(ctx: Context, t: Tile, w: Work, xs: seq<Candidate>)
    requires ContextValid(ctx) && TileValid(ctx, t) && CandidatesValid(ctx, t, xs)
    ensures FillSteps(ctx, t, w, xs).out == PackAll(ctx, t, w.out, xs)
    decreases |xs|
  {
    if |xs| > 0 {
      var w1 := FillStep(ctx, t, w, xs[0]);
      assert FillSteps(ctx, t, w, xs) == FillSteps(ctx, t, w1, xs[1..]);
      FillStepsOut(ctx, t, w1, xs[1..]);
    }
  }

  /** The fill steps of a tile append to its id cache the indices of exactly the
      candidates whose cell has an owner, in order. */
  lemma {:induction false} FillStepsIds(ctx: Context, t: Tile, w: Work, xs: seq<Candidate>)
    requires ContextValid(ctx) && TileValid(ctx, t) && CandidatesValid(ctx, t, xs)
    ensures CachedIds(FillSteps(ctx, t, w, xs).caches, t.index) == CachedIds(w.caches, t.index) + IdsOf(Kept(ctx, xs))
    decreases |xs|
  {
    if |xs| > 0 {
      var x := xs[0];
      var w1 := FillStep(ctx, t, w, x);
      assert FillSteps(ctx, t, w, xs) == FillSteps(ctx, t, w1, xs[1..]);
      FillStepsIds(ctx, t, w1, xs[1..]);
      var kr := Kept(ctx, xs[1..]);
      var kx := Own(ctx, x);
      FillStepCaches(ctx, t, w, x);
      assert Kept(ctx, xs) == kx + kr;
      IdsCellsAppend(kx, kr);
      var a := CachedIds(w.caches, t.index);
      AppendAssoc(a, IdsOf(kx), IdsOf(kr));
    }
  }

  /** The same for the cell cache: the neighbour cells of exactly the kept candidates. */
  lemma {:induction false} FillStepsCells(ctx: Context, t: Tile, w: Work, xs: seq<Candidate>)
    requires ContextValid(ctx) && TileValid(ctx, t) && CandidatesValid(ctx, t, xs)
    ensures CachedCells(FillSteps(ctx, t, w, xs).caches, t.index) == CachedCells(w.caches, t.index) + CellsOf(Kept(ctx, xs))
    decreases |xs|
  {
    if |xs| > 0 {
      var x := xs[0];
      var w1 := FillStep(ctx, t, w, x);
      assert FillSteps(ctx, t, w, xs) == FillSteps(ctx, t, w1, xs[1..]);
      FillStepsCells(ctx, t, w1, xs[1..]);
      var kr := Kept(ctx, xs[1..]);
      var kx := Own(ctx, x);
      FillStepCaches(ctx, t, w, x);
      assert Kept(ctx, xs) == kx + kr;
      IdsCellsAppend(kx, kr);
      var a := CachedCells(w.caches, t.index);
      AppendAssoc(a, CellsOf(kx), CellsOf(kr));
    }
  }

  /** The indices and cells of valid candidates are valid replay arguments. */
  lemma KeptReplayArgs(ctx: Context, t: Tile, xs: seq<Candidate>)
    requires CandidatesValid(ctx, t, xs)
    ensures ReplayArgs(ctx, t, IdsOf(Kept(ctx, xs)), CellsOf(Kept(ctx, xs)))
  {
    KeptValid(ctx, t, xs);
    IdsCellsIndex(Kept(ctx, xs));
  }

  /** Replaying the cached (index, cell) pairs packs the same records as the fill did. */
  lemma {:induction false} PackAllKept(ctx: Context, t: Tile, ob: Outbox, xs: seq<Candidate>)
    requires ContextValid(ctx) && TileValid(ctx, t) && CandidatesValid(ctx, t, xs)
    ensures ReplayArgs(ctx, t, IdsOf(Kept(ctx, xs)), CellsOf(Kept(ctx, xs)))
      && PackAll(ctx, t, ob, xs) == Replay(ctx, t, ob, IdsOf(Kept(ctx, xs)), CellsOf(Kept(ctx, xs)))
    decreases |xs|
  {
    KeptReplayArgs(ctx, t, xs);
    if |xs| > 0 {
      var x := xs[0];
      var ob1 := PackNeighborParticle(ctx, ob, x.cell, t.particles[x.i]);
      var kr := Kept(ctx, xs[1..]);
      assert Kept(ctx, xs) == Own(ctx, x) + kr;
      IdsCellsAppend(Own(ctx, x), kr);
      if ctx.mask(x.cell).grid >= 0 {
        PackAllKept(ctx, t, ob1, xs[1..]);
        assert IdsOf([x]) == [x.i as int] && CellsOf([x]) == [x.cell];
        var ids := IdsOf(Kept(ctx, xs));
        var cells := CellsOf(Kept(ctx, xs));
        assert ids[0] == x.i && ids[1..] == IdsOf(kr);
        assert cells[0] == x.cell && cells[1..] == CellsOf(kr);
      } else {
        assert ob1 == ob;
        assert IdsOf([]) == [] && CellsOf([]) == [];
        assert [] + IdsOf(kr) == IdsOf(kr) && [] + CellsOf(kr) == CellsOf(kr);
        PackAllKept(ctx, t, ob, xs[1..]);
      }
    }
  }

  /** After the fill steps of a tile that started with empty caches, the tile's
      caches are valid replay arguments that repack what the steps packed. */
  lemma FillStepsReplay(ctx: Context, t: Tile, w: Work)
    requires ContextValid(ctx) && TileValid(ctx, t)
    requires CachedIds(w.caches, t.index) == [] && CachedCells(w.caches, t.index) == []
    ensures var r := FillSteps(ctx, t, w, AllCandidates(ctx, t));
      ReplayArgs(ctx, t, CachedIds(r.caches, t.index), CachedCells(r.caches, t.index))
      && Replay(ctx, t, w.out, CachedIds(r.caches, t.index), CachedCells(r.caches, t.index)) == r.out
  {
    var xs := AllCandidates(ctx, t);
    FillStepsOut(ctx, t, w, xs);
    FillStepsIds(ctx, t, w, xs);
    FillStepsCells(ctx, t, w, xs);
    PackAllKept(ctx, t, w.out, xs);
    assert [] + IdsOf(Kept(ctx, xs)) == IdsOf(Kept(ctx, xs));
    assert [] + CellsOf(Kept(ctx, xs)) == CellsOf(Kept(ctx, xs));
  }

  /** Filling from empty caches leaves caches whose replay repacks exactly what the
      fill packed, tile by tile. */
  lemma {:induction false} FillTilesReplay(ctx: Context, tiles: seq<Tile>, w: Work)
    requires ContextValid(ctx) && TilesValid(ctx, tiles) && DistinctIndices(tiles)
    requires forall j :: 0 <= j < |tiles| ==>
      CachedIds(w.caches, tiles[j].index) == [] && CachedCells(w.caches, tiles[j].index) == []
    ensures ReplayValid(ctx, tiles, FillTiles(ctx, tiles, w).caches)
      && UpdateTiles(ctx, tiles, FillTiles(ctx, tiles, w).caches, w.out) == FillTiles(ctx, tiles, w).out
    decreases |tiles|
  {
    if |tiles| > 0 {
      var t := tiles[0];
      var rest := tiles[1..];
      var w1 := FillSteps(ctx, t, w, AllCandidates(ctx, t));
      var r := FillTiles(ctx, rest, w1);
      assert FillTiles(ctx, tiles, w) == r;
      FillStepsReplay(ctx, t, w);
      assert forall j :: 0 <= j < |rest| ==> rest[j] == tiles[j + 1];
      FillTilesReplay(ctx, rest, w1);
      assert forall j :: 0 <= j < |rest| ==> rest[j].index != t.index;
      var ids := CachedIds(r.caches, t.index);
      var cells := CachedCells(r.caches, t.index);
      assert ids == CachedIds(w1.caches, t.index) && cells == CachedCells(w1.caches, t.index);
      assert ReplayValid(ctx, tiles, r.caches) by {
        forall j | 0 <= j < |tiles|
          ensures ReplayArgs(ctx, tiles[j], CachedIds(r.caches, tiles[j].index), CachedCells(r.caches, tiles[j].index))
        {
          if j > 0 {
            assert tiles[j] == rest[j - 1];
          }
        }
      }
      assert UpdateTiles(ctx, tiles, r.caches, w.out) == UpdateTiles(ctx, rest, r.caches, Replay(ctx, t, w.out, ids, cells));
    }
  }

  /** Right after a clear and a fill, an update with unchanged particles reproduces the
      fill's neighbour buffers and sends and keeps its caches. */
  lemma UpdateReplaysFill(ctx: Context, tiles: seq<Tile>, lv: Level, incoming: seq<seq<byte>>)
    requires ContextValid(ctx) && TilesValid(ctx, tiles) && DistinctIndices(tiles)
    ensures var r := FillNeighbors(ctx, tiles, ClearNeighbors(lv), incoming);
      r.Success? ==>
        ReplayValid(ctx, tiles, r.value.level.caches)
        && UpdateNeighbors(ctx, tiles, r.value.level, incoming) == r
  {
    var w0 := Work(NoCaches, Outbox(map[], []));
    FillTilesReplay(ctx, tiles, w0);
  }

  /** A tile whose particles all sit in the interior shrunk by the halo width has no
      candidates, so it neither caches nor packs anything. */
  lemma {:induction false} InteriorTileIsQuiet(ctx: Context, t: Tile, m: nat)
    requires ContextValid(ctx) && TileValid(ctx, t) && m <= |t.particles|
    requires forall i :: 0 <= i < |t.particles| ==>
      Contains(Grow(t.box, -(ctx.n as int)), ctx.cellOf(t.particles[i]))
    ensures TileCandidates(ctx, t, m) == []
  {
    if m > 0 {
      InteriorTileIsQuiet(ctx, t, m - 1);
      var cells := Classify.NeighborCells(ctx.cellOf(t.particles[m - 1]), t.box, ctx.n);
      assert cells == [];
      assert ParticleCandidates(ctx, t, m - 1) == [];
    }
  }

  // ---------------------------------------------------------------------------
  // What every destination receives, over all tiles
  // ---------------------------------------------------------------------------

  /** The copies the classification of tile `t` routes to tile `k` of process `q`. */
  function TileRecords(ctx: Context, t: Tile, q: int, k: PairIndex): (r: seq<Particle>)
    requires ContextValid(ctx) && TileValid(ctx, t)
    ensures forall m :: 0 <= m < |r| ==> Sized(ctx.schema, r[m])
  {
    RecordsTo(ctx, t, AllCandidates(ctx, t), q, k)
  }

  /** The copies the fill routes to tile `k` of process `q`: tile by tile, in the order of
      the classification loop. */
  function FillRecords(ctx: Context, tiles: seq<Tile>, q: int, k: PairIndex): (r: seq<Particle>)
    requires ContextValid(ctx) && TilesValid(ctx, tiles)
    decreases |tiles|
  {
    if |tiles| == 0 then []
    else
      TileRecords(ctx, tiles[0], q, k) + FillRecords(ctx, tiles[1..], q, k)
  }

  /** Every copy a fill sends has the schema's shape, so it packs to `pdata_size` bytes. */
  lemma {:induction false} FillRecordsSized(ctx: Context, tiles: seq<Tile>, q: int, k: PairIndex)
    requires ContextValid(ctx) && TilesValid(ctx, tiles)
    ensures AllSized(ctx.schema, FillRecords(ctx, tiles, q, k))
    decreases |tiles|
  {
    if |tiles| > 0 {
      var own := TileRecords(ctx, tiles[0], q, k);
      var rest := FillRecords(ctx, tiles[1..], q, k);
      FillRecordsSized(ctx, tiles[1..], q, k);
      AllSizedAppend(ctx.schema, own, rest);
    }
  }

  /** Over a whole fill, every destination buffer grows by the records of exactly the
      copies routed to it, in tile and candidate order, and so by a whole number of
      records. */
  lemma {:induction false} FillTilesInbound(ctx: Context, tiles: seq<Tile>, w: Work, q: int, k: PairIndex)
    requires ContextValid(ctx) && TilesValid(ctx, tiles)
    ensures Inbound(ctx, FillTiles(ctx, tiles, w).out, q, k)
      == Inbound(ctx, w.out, q, k) + EncodeAll(FillRecords(ctx, tiles, q, k))
    ensures |Inbound(ctx, FillTiles(ctx, tiles, w).out, q, k)|
      == |Inbound(ctx, w.out, q, k)| + |FillRecords(ctx, tiles, q, k)| * RecordSize(ctx.schema)
    decreases |tiles|
  {
    FillRecordsSized(ctx, tiles, q, k);
    EncodeAllLength(ctx.schema, FillRecords(ctx, tiles, q, k));
    if |tiles| > 0 {
      var t := tiles[0];
      var xs := AllCandidates(ctx, t);
      var w1 := FillSteps(ctx, t, w, xs);
      assert FillTiles(ctx, tiles, w) == FillTiles(ctx, tiles[1..], w1);
      FillStepsOut(ctx, t, w, xs);
      PackAllInbound(ctx, t, w.out, xs, q, k);
      FillTilesInbound(ctx, tiles[1..], w1, q, k);
      var own := TileRecords(ctx, t, q, k);
      var rest := FillRecords(ctx, tiles[1..], q, k);
      EncodeAllAppend(own, rest);
      AppendAssoc(Inbound(ctx, w.out, q, k), EncodeAll(own), EncodeAll(rest));
    }
  }

  /** The copies a replay of the cache entries `ids`, `cells` routes to tile `k` of
      process `q`, built from the tile's current particles. */
  function ReplayRecords(ctx: Context, t: Tile, ids: seq<int>, cells: seq<Cell>, q: int, k: PairIndex)
    : (r: seq<Particle>)
    requires ContextValid(ctx) && TileValid(ctx, t) && ReplayArgs(ctx, t, ids, cells)
    ensures forall m :: 0 <= m < |r| ==> Sized(ctx.schema, r[m])
    decreases |ids|
  {
    if |ids| == 0 then []
    else
      var own := RoutedTo(ctx, t.particles[ids[0]], cells[0], q, k);
      var rest := ReplayRecords(ctx, t, ids[1..], cells[1..], q, k);
      assert forall m :: 0 <= m < |own + rest| ==>
        (own + rest)[m] == (if m < |own| then own[m] else rest[m - |own|]);
      own + rest
  }

  /** Replaying the caches of one tile appends to each destination the records of the
      current particles named by the entries routed there, in cache order. */
  lemma {:induction false} ReplayInbound(ctx: Context, t: Tile, ob: Outbox, ids: seq<int>, cells: seq<Cell>,
                                         q: int, k: PairIndex)
    requires ContextValid(ctx) && TileValid(ctx, t) && ReplayArgs(ctx, t, ids, cells)
    ensures Inbound(ctx, Replay(ctx, t, ob, ids, cells), q, k)
      == Inbound(ctx, ob, q, k) + EncodeAll(ReplayRecords(ctx, t, ids, cells, q, k))
    decreases |ids|
  {
    if |ids| > 0 {
      var p := t.particles[ids[0]];
      var ob1 := PackNeighborParticle(ctx, ob, cells[0], p);
      PackRoutesRecord(ctx, ob, cells[0], p, q, k);
      ReplayInbound(ctx, t, ob1, ids[1..], cells[1..], q, k);
      var own := RoutedTo(ctx, p, cells[0], q, k);
      var rest := ReplayRecords(ctx, t, ids[1..], cells[1..], q, k);
      EncodeAllAppend(own, rest);
      AppendAssoc(Inbound(ctx, ob, q, k), EncodeAll(own), EncodeAll(rest));
    }
  }

  /** The copies an update routes to tile `k` of process `q`: tile by tile, each tile's
      cache entries in order. */
  function UpdateRecords(ctx: Context, tiles: seq<Tile>, c: Caches, q: int, k: PairIndex): (r: seq<Particle>)
    requires ContextValid(ctx) && TilesValid(ctx, tiles) && ReplayValid(ctx, tiles, c)
    ensures forall m :: 0 <= m < |r| ==> Sized(ctx.schema, r[m])
    decreases |tiles|
  {
    if |tiles| == 0 then []
    else
      var own := ReplayRecords(ctx, tiles[0], CachedIds(c, tiles[0].index), CachedCells(c, tiles[0].index), q, k);
      assert ReplayValid(ctx, tiles[1..], c) by {
        forall j | 0 <= j < |tiles| - 1 ensures tiles[1..][j] == tiles[j + 1] { }
      }
      var rest := UpdateRecords(ctx, tiles[1..], c, q, k);
      assert forall m :: 0 <= m < |own + rest| ==>
        (own + rest)[m] == (if m < |own| then own[m] else rest[m - |own|]);
      own + rest
  }

  /** After particles have moved, an update still sends each destination exactly the
      current data of the particles its cache entries name, shifted for the cached cell,
      as a whole number of records. */
  lemma {:induction false} UpdateTilesInbound(ctx: Context, tiles: seq<Tile>, c: Caches, ob: Outbox, q: int, k: PairIndex)
    requires ContextValid(ctx) && TilesValid(ctx, tiles) && ReplayValid(ctx, tiles, c)
    ensures Inbound(ctx, UpdateTiles(ctx, tiles, c, ob), q, k)
      == Inbound(ctx, ob, q, k) + EncodeAll(UpdateRecords(ctx, tiles, c, q, k))
    ensures |Inbound(ctx, UpdateTiles(ctx, tiles, c, ob), q, k)|
      == |Inbound(ctx, ob, q, k)| + |UpdateRecords(ctx, tiles, c, q, k)| * RecordSize(ctx.schema)
    decreases |tiles|
  {
    EncodeAllLength(ctx.schema, UpdateRecords(ctx, tiles, c, q, k));
    if |tiles| > 0 {
      var t := tiles[0];
      var ids, cells := CachedIds(c, t.index), CachedCells(c, t.index);
      var ob1 := Replay(ctx, t, ob, ids, cells);
      assert ReplayValid(ctx, tiles[1..], c) by {
        forall j | 0 <= j < |tiles| - 1 ensures tiles[1..][j] == tiles[j + 1] { }
      }
      assert UpdateTiles(ctx, tiles, c, ob) == UpdateTiles(ctx, tiles[1..], c, ob1);
      ReplayInbound(ctx, t, ob, ids, cells, q, k);
      UpdateTilesInbound(ctx, tiles[1..], c, ob1, q, k);
      var own := ReplayRecords(ctx, t, ids, cells, q, k);
      var rest := UpdateRecords(ctx, tiles[1..], c, q, k);
      EncodeAllAppend(own, rest);
      AppendAssoc(Inbound(ctx, ob, q, k), EncodeAll(own), EncodeAll(rest));
    }
  }

  // ---------------------------------------------------------------------------
  // What a whole exchange delivers
  // ---------------------------------------------------------------------------

  /** The queue fits the 32-bit integers of the wire format: its entry count, and every
      tag and payload size. */
  predicate WireReady(l: CommList) {
    IsInt32(|l|) && forall i :: 0 <= i < |l| ==> Framing.Encodable(l[i])
  }

  /** With nothing received from other processes, a fill succeeds and leaves in each local
      tile's neighbour buffer the old bytes followed by the records of the copies routed
      to that tile. */
  lemma FillNeighborsLocal(ctx: Context, tiles: seq<Tile>, lv: Level, k: PairIndex)
    requires ContextValid(ctx) && TilesValid(ctx, tiles)
    ensures FillNeighbors(ctx, tiles, lv, []).Success?
    ensures Get(FillNeighbors(ctx, tiles, lv, []).value.level.neighbors, k)
      == Get(lv.neighbors, k) + EncodeAll(FillRecords(ctx, tiles, ctx.myProc, k))
  {
    FillTilesInbound(ctx, tiles, Work(lv.caches, Outbox(lv.neighbors, [])), ctx.myProc, k);
  }

  /** The buffer a fill sends to process `q` unpacks, on `q`, into exactly the records of
      the copies routed to each of its tiles, appended to what the tile already held. */
  lemma FillNeighborsDelivers(ctx: Context, tiles: seq<Tile>, lv: Level, incoming: seq<seq<byte>>,
                              q: int, k: PairIndex, st: Store)
    requires ContextValid(ctx) && TilesValid(ctx, tiles)
    requires WireReady(FillTiles(ctx, tiles, Work(lv.caches, Outbox(lv.neighbors, []))).out.remote)
    requires FillNeighbors(ctx, tiles, lv, incoming).Success?
    requires q in FillNeighbors(ctx, tiles, lv, incoming).value.sends
    ensures Framing.Unpack(st, FillNeighbors(ctx, tiles, lv, incoming).value.sends[q]).Success?
    ensures Get(Framing.Unpack(st, FillNeighbors(ctx, tiles, lv, incoming).value.sends[q]).value, k)
      == Get(st, k) + EncodeAll(FillRecords(ctx, tiles, q, k))
  {
    var w0 := Work(lv.caches, Outbox(lv.neighbors, []));
    var w := FillTiles(ctx, tiles, w0);
    FillSends(ctx, tiles, lv, incoming, q);
    FillTilesInbound(ctx, tiles, w0, q, k);
    assert Inbound(ctx, w0.out, q, k) == [];
    QueueDelivers(ctx, w.out, q, k, st, FillRecords(ctx, tiles, q, k));
  }

  lemma FillSends(ctx: Context, tiles: seq<Tile>, lv: Level, incoming: seq<seq<byte>>, q: int)
    requires ContextValid(ctx) && TilesValid(ctx, tiles)
    requires FillNeighbors(ctx, tiles, lv, incoming).Success?
    requires q in FillNeighbors(ctx, tiles, lv, incoming).value.sends
    ensures q != ctx.myProc
    ensures FillNeighbors(ctx, tiles, lv, incoming).value.sends[q]
      == Framing.EncodeFor(FillTiles(ctx, tiles, Work(lv.caches, Outbox(lv.neighbors, []))).out.remote, q)
  {
  }

  /** With nothing received from other processes, an update succeeds and leaves in each
      local tile's neighbour buffer exactly the records its cache entries name, built from
      the current particles. */
  lemma UpdateNeighborsLocal(ctx: Context, tiles: seq<Tile>, lv: Level, k: PairIndex)
    requires ContextValid(ctx) && TilesValid(ctx, tiles) && ReplayValid(ctx, tiles, lv.caches)
    ensures UpdateNeighbors(ctx, tiles, lv, []).Success?
    ensures Get(UpdateNeighbors(ctx, tiles, lv, []).value.level.neighbors, k)
      == EncodeAll(UpdateRecords(ctx, tiles, lv.caches, ctx.myProc, k))
  {
    UpdateTilesInbound(ctx, tiles, lv.caches, Outbox(map[], []), ctx.myProc, k);
  }

  /** The buffer an update sends to process `q` unpacks, on `q`, into exactly the records
      the cache entries route to each of its tiles. */
  lemma UpdateNeighborsDelivers(ctx: Context, tiles: seq<Tile>, lv: Level, incoming: seq<seq<byte>>,
                                q: int, k: PairIndex, st: Store)
    requires ContextValid(ctx) && TilesValid(ctx, tiles) && ReplayValid(ctx, tiles, lv.caches)
    requires WireReady(UpdateTiles(ctx, tiles, lv.caches, Outbox(map[], [])).remote)
    requires UpdateNeighbors(ctx, tiles, lv, incoming).Success?
    requires q in UpdateNeighbors(ctx, tiles, lv, incoming).value.sends
    ensures Framing.Unpack(st, UpdateNeighbors(ctx, tiles, lv, incoming).value.sends[q]).Success?
    ensures Get(Framing.Unpack(st, UpdateNeighbors(ctx, tiles, lv, incoming).value.sends[q]).value, k)
      == Get(st, k) + EncodeAll(UpdateRecords(ctx, tiles, lv.caches, q, k))
  {
    var ob0 := Outbox(map[], []);
    var ob := UpdateTiles(ctx, tiles, lv.caches, ob0);
    var r := UpdateNeighbors(ctx, tiles, lv, incoming).value;
    assert r.sends == Framing.SendData(ob.remote);
    UpdateTilesInbound(ctx, tiles, lv.caches, ob0, q, k);
    assert Inbound(ctx, ob0, q, k) == [];
    QueueDelivers(ctx, ob, q, k, st, UpdateRecords(ctx, tiles, lv.caches, q, k));
  }

  /** Framing the queue for another process `q` and unpacking it there appends, to each
      of `q`'s tiles, the bytes queued for it. */
  lemma QueueDelivers(ctx: Context, ob: Outbox, q: int, k: PairIndex, st: Store, recs: seq<Particle>)
    requires q != ctx.myProc && WireReady(ob.remote)
    requires Inbound(ctx, ob, q, k) == EncodeAll(recs)
    ensures Framing.Unpack(st, Framing.EncodeFor(ob.remote, q)).Success?
    ensures Get(Framing.Unpack(st, Framing.EncodeFor(ob.remote, q)).value, k) == Get(st, k) + EncodeAll(recs)
  {
    Framing.UnpackDeliversQueuedBytes(st, ob.remote, q, k);
  }
}
