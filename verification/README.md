# Neighbour particles of AMReX, in Dafny

This project models the particle halo ("neighbour") machinery of AMReX's
`NeighborParticleContainer` and proves properties of it. It also models the integer
parts of the `Particle` utilities next to it. Covered:

- **Owner mask** (`InitLevelMask`): every cell maps to the (grid, tile) that owns it,
  or to -1 where no tile does.
- **Classification** (`fillNeighbors`): a particle within `num_neighbor_cells` of a
  tile edge gets a shift of -n, 0 or +n per axis. The shifts give the "face", "edge"
  and (in 3D) "vertex" neighbour cells that must receive a copy.
- **Packing and caching** (`packNeighborParticle`, `applyPeriodicShift`,
  `cacheNeighborParticle`): the copy is shifted by one domain length on periodic
  axes. Its record bytes go to the local neighbour store or to the outbound buffer for
  (process, grid, tile). The pair (particle index, cell) is cached so that
  `updateNeighbors` can replay it.
- **Exchange framing** (`fillNeighborsMPI`): each process gets one buffer
  `ntiles, (gid, tid, size, payload)*`. Each received buffer is unpacked into the
  store.
- **The fill / update / clear cycle** (`fillNeighbors`, `updateNeighbors`,
  `clearNeighbors`).
- **Neighbour list** (`buildNeighborList`): the tile's particles are merged with the
  received copies. They are binned into per-cell linked lists (`head`/`list`) over
  the tile box grown by the halo width. For each particle the output is a count,
  then the one-based indices of the candidates in the surrounding cells. Every
  sublist can optionally be sorted.
- **Particle utilities**: the `CIC_Cells` stencil and the cell enumeration of
  `CIC_Cells_Fracs`, the id counter (`NextID`, `UnprotectedNextID`, `NextID(int)`),
  and the cached settings `MaxReaders` and `MaxParticlesPerRead`.

Modules, one per file:

- `Wrappers` (wrappers.dfy): `Option`, `Result`, `Error`.
- `Bytes` (bytes.dfy): little-endian two's-complement words.
- `Seqs` (seqs.dfy): `Distinct`, `Flatten`.
- `Boxes` (boxes.dfy): `IntVect`/`Box` as `seq<int>` and a pair of corners, and
  visiting a box's cells with the first axis fastest.
- `Records` (records.dfy): the `pdata_size`-byte image of a particle.
- `Buffers` (buffers.dfy): the neighbour store and the ordered `NeighborCommMap`.
- `Framing` (framing.dfy): the wire format.
- `LevelMask` (mask.dfy): the owner mask.
- `Classify` (classify.dfy): shifts and neighbour cells.
- `Halo` (halo.dfy): packing, caches and the cycle.
- `NeighborList` (neighbor_list.dfy): the neighbour-list builder.
- `Cic` (cic.dfy): the CIC cells.
- `ParticleIds` and `ReadLimits` (particle_ids.dfy): the id counter and the cached
  settings.

Positions are integers that stand in for `Real`. A record holds the real words (position,
then the extra reals) as 8 bytes each, then the integer words (`id`, `cpu`, then the extra
integers) as 4 bytes each, with no padding: `pdata_size` is taken to be
8·(dim + nreal) + 4·(2 + nint). The definition of `pdata_size` is in a header that is not
part of this model. The space dimension is the length of a cell, from 1 to 3 where the
source branches on `BL_SPACEDIM`.

## Model

| member | source | states |
|---|---|---|
| LevelMask.InitLevelMask | Src/Particle/AMReX_NeighborParticlesI.H:38-46 | a cell no tile box covers reads -1; otherwise the mask holds the (grid, tile) of the last tile whose box covers it |
| LevelMask.MaskNamesOwner | Src/Particle/AMReX_NeighborParticlesI.H:40-46 | with non-overlapping tile boxes, the mask of a cell names exactly the tile containing it |
| Classify.Shift | Src/Particle/AMReX_NeighborParticlesI.H:79-85 | per axis the shift is -n iff the cell is within n of the low face, +n iff it is not and is within n of the high face, 0 otherwise |
| Classify.NoNeighborsIffInterior | Src/Particle/AMReX_NeighborParticlesI.H:65-75 | a particle has no neighbour cells exactly when its cell lies in the tile box shrunk by n |
| Classify.NeighborCells | Src/Particle/AMReX_NeighborParticlesI.H:89-95 | every cell a particle is sent towards has the dimension of its own cell; which cells, how many and that none repeats are stated by the three rows below |
| Classify.NeighborCellsExact | Src/Particle/AMReX_NeighborParticlesI.H:87-123 | the neighbour cells are exactly the cell moved by its shift on a non-empty subset of its shifted axes |
| Classify.NeighborCellsDistinct | Src/Particle/AMReX_NeighborParticlesI.H:87-123 | no neighbour cell is produced twice |
| Classify.NeighborCellsCount | Src/Particle/AMReX_NeighborParticlesI.H:87-123 | with k shifted axes there are 2^k - 1 neighbour cells |
| Classify.AxisSetsCount | Src/Particle/AMReX_NeighborParticlesI.H:91-122 | the loops give k faces, k(k-1)/2 edges and, in 3D with three shifted axes, one vertex |
| Classify.CornerParticle2D | Src/Particle/AMReX_NeighborParticlesI.H:87-112 | a particle in the low corner cell of a 2D tile goes to 3 neighbour cells |
| Classify.CornerParticle3D | Src/Particle/AMReX_NeighborParticlesI.H:87-123 | a particle in the low corner cell of a 3D tile goes to 7 neighbour cells |
| Classify.NeighborCellsInHalo | Src/Particle/AMReX_NeighborParticlesI.H:93-95 | every neighbour cell of a particle in the tile lies outside the tile and inside the tile grown by n (the box the mask covers) |
| Halo.ApplyPeriodicShift | Src/Particle/AMReX_NeighborParticlesI.H:175-199 | per axis: non-periodic or in-domain coordinates unchanged; a periodic cell below the domain adds one length, above it subtracts one; all other fields unchanged |
| Halo.ShiftIdentity | Src/Particle/AMReX_NeighborParticlesI.H:182-198 | with no periodic axis, or a cell inside the domain, the copy equals the particle |
| Halo.ShiftThereAndBack | Src/Particle/AMReX_NeighborParticlesI.H:190-198 | shifting to a cell past one side and then to its mirror past the other side restores the position |
| Halo.PackNeighborParticle | Src/Particle/AMReX_NeighborParticlesI.H:201-234 | a cell without an owner changes nothing; an owner on this process leaves the outbound queue alone; an owner elsewhere leaves the local store alone; no tag for this process is ever queued |
| Halo.Replica | Src/Particle/AMReX_NeighborParticlesI.H:212-224 | the shifted copy keeps the schema's shape, so its record is `pdata_size` bytes |
| Halo.PackRoutesRecord | Src/Particle/AMReX_NeighborParticlesI.H:212-232 | for every (process, tile), the bytes waiting for it grow by the shifted record exactly when the cell routes there, and are unchanged otherwise; so they grow by `pdata_size` bytes or not at all |
| Buffers.AppendAtLookup | Src/Particle/AMReX_NeighborParticlesI.H:226-231 | appending under a tag extends that tag's buffer by the bytes and no other buffer |
| Halo.CacheNeighborParticle | Src/Particle/AMReX_NeighborParticlesI.H:236-251 | an ownerless cell changes nothing; otherwise the index and the cell are pushed together under the source tile only, so the two caches stay the same length |
| Halo.PackAllInbound | Src/Particle/AMReX_NeighborParticlesI.H:91-122 | packing a run of candidates appends to each destination the records of the candidates routed there, in order |
| Halo.FillTiles | Src/Particle/AMReX_NeighborParticlesI.H:59-125 | the loop over tiles keeps the caches aligned, never queues a tag for its own process, and leaves the caches of tiles it does not visit alone |
| Halo.FillTilesInbound | Src/Particle/AMReX_NeighborParticlesI.H:59-125 | over all tiles, every destination's bytes grow by exactly the records of the copies routed to it, in tile and candidate order, a whole number of `pdata_size` records |
| Halo.FillNeighbors | Src/Particle/AMReX_NeighborParticlesI.H:51-128 | the fill keeps both caches aligned and never sends to its own process |
| Halo.FillNeighborsLocal | Src/Particle/AMReX_NeighborParticlesI.H:51-128 | with nothing received, the fill succeeds and each local tile's neighbour buffer is its old bytes followed by the records routed to it |
| Halo.FillNeighborsDelivers | Src/Particle/AMReX_NeighborParticlesI.H:59-127 | the buffer sent to process q unpacks there into exactly the records routed to each of q's tiles, after the bytes the tile held |
| Halo.Replay | Src/Particle/AMReX_NeighborParticlesI.H:149-154 | re-packing one tile's cache entries never queues a tag for its own process |
| Halo.ReplayInbound | Src/Particle/AMReX_NeighborParticlesI.H:149-154 | re-packing one tile's cache entries appends to each destination the records of the current particles the entries route there, each shifted for its cached cell |
| Halo.UpdateTiles | Src/Particle/AMReX_NeighborParticlesI.H:141-156 | the loop over tiles never queues a tag for its own process |
| Halo.UpdateTilesInbound | Src/Particle/AMReX_NeighborParticlesI.H:141-156 | over all tiles, and whatever the particles did since the fill, every destination's bytes grow by exactly the records the cache entries route to it, from the current particle data, a whole number of `pdata_size` records |
| Halo.UpdateNeighbors | Src/Particle/AMReX_NeighborParticlesI.H:130-159 | the update keeps the caches and never sends to its own process |
| Halo.UpdateNeighborsLocal | Src/Particle/AMReX_NeighborParticlesI.H:138-158 | with nothing received, the update succeeds and each local tile's neighbour buffer holds exactly the records its cache entries route to it |
| Halo.UpdateNeighborsDelivers | Src/Particle/AMReX_NeighborParticlesI.H:141-158 | the buffer sent to process q unpacks there into exactly the records the cache entries route to each of q's tiles |
| Halo.ClearNeighbors | Src/Particle/AMReX_NeighborParticlesI.H:161-173 | the neighbour store and both caches are empty for every tile |
| Halo.FillTilesReplay | Src/Particle/AMReX_NeighborParticlesI.H:59-125 | after a fill from empty caches, the caches are valid replay arguments, and replaying them repacks exactly what the fill packed |
| Halo.UpdateReplaysFill | Src/Particle/AMReX_NeighborParticlesI.H:138-158 | after clear and fill, an update with unchanged particles yields the same store, caches and send buffers as the fill |
| Halo.InteriorTileIsQuiet | Src/Particle/AMReX_NeighborParticlesI.H:65-75 | a tile whose particles all lie in its shrunk box produces no candidates, so nothing is cached or packed |
| Framing.SendData | Src/Particle/AMReX_NeighborParticlesI.H:315-320 | exactly the processes with at least one queued tag get a buffer |
| Framing.FramingRoundTrip | Src/Particle/AMReX_NeighborParticlesI.H:306-335 | unpacking the buffer built for process q appends, frame by frame, the payloads queued for q (zero-size frames skipped) |
| Framing.UnpackDeliversQueuedBytes | Src/Particle/AMReX_NeighborParticlesI.H:394-408 | after unpacking the buffer for q, every tile's store buffer is its old bytes followed by exactly the bytes queued for (q, that tile) |
| Framing.EncodeFor | Src/Particle/AMReX_NeighborParticlesI.H:306-335 | a buffer is 4 bytes plus, per frame, 12 header bytes and the payload, and its first word reads back as the number of frames for that process |
| Framing.UnpackFrames | Src/Particle/AMReX_NeighborParticlesI.H:396-408 | walking the frames only appends: every tile keeps its old bytes as a prefix |
| Framing.Unpack | Src/Particle/AMReX_NeighborParticlesI.H:392-408 | unpacking one received buffer only appends to the store |
| Framing.UnpackAll | Src/Particle/AMReX_NeighborParticlesI.H:388-410 | unpacking all received buffers in turn only appends to the store |
| Records.RecordRoundTrip | Src/Particle/AMReX_NeighborParticlesI.H:221-224 | a well-formed particle's record has `pdata_size` bytes and decodes back to the particle |
| Records.RecordsRoundTrip | Src/Particle/AMReX_NeighborParticlesI.H:430-442 | a buffer of packed records holds size / `pdata_size` records, and they decode to the packed particles |
| NeighborList.Merge | Src/Particle/AMReX_NeighborParticlesI.H:428-442 | the merged array is the tile's particles followed by size / `pdata_size` well-formed copies |
| NeighborList.MergeRoundTrip | Src/Particle/AMReX_NeighborParticlesI.H:431-442 | merging a tile's particles with a buffer of packed copies gives the particles followed by the copies |
| NeighborList.Bin | Src/Particle/AMReX_NeighborParticlesI.H:447-459 | after binning, `head(cell)` is the last index in that cell and `list[i]` the previous index in the same cell, -1 when there is none |
| NeighborList.BinChains | Src/Particle/AMReX_NeighborParticlesI.H:450-459 | walking from `head(cell)` visits exactly the indices whose cell is `cell`, in decreasing order |
| Boxes.CellsWalk | Src/Particle/AMReX_NeighborParticlesI.H:475 | the `bx.next(iv)` walk starts at the small end, reaches the big end, steps from cell to next cell, and leaves the box after the big end |
| NeighborList.WalkChain | Src/Particle/AMReX_NeighborParticlesI.H:472-483 | the `while (j >= 0)` walk collects j+1 for every chain index j that is not i and passes `check_pair` |
| NeighborList.Emit | Src/Particle/AMReX_NeighborParticlesI.H:463-492 | the emitted array is, for each particle in order, its count followed by its sublist |
| NeighborList.SublistMember | Src/Particle/AMReX_NeighborParticlesI.H:463-492 | x is in particle i's sublist iff x-1 is another merged particle that passes `check_pair` and whose cell lies within n of i's cell and inside the head box |
| NeighborList.SublistDistinct | Src/Particle/AMReX_NeighborParticlesI.H:472-488 | a particle's sublist names no neighbour twice |
| NeighborList.SublistCount | Src/Particle/AMReX_NeighborParticlesI.H:463-490 | the count written for a particle is the number of its neighbours: the size of the set of partners `SublistMember` describes |
| NeighborList.LayoutLength | Src/Particle/AMReX_NeighborParticlesI.H:463-492 | the array has N count slots plus the sum of the counts |
| NeighborList.ParseLayout | Src/Particle/AMReX_NeighborParticlesI.H:494-499 | hopping from count slot to count slot recovers exactly the sublists |
| NeighborList.SortIntsSorted | Src/Particle/AMReX_NeighborParticlesI.H:494-499 | the sorted copy of one sublist is ascending and a permutation of it (same entries, same multiplicities) |
| NeighborList.SortAll | Src/Particle/AMReX_NeighborParticlesI.H:494-499 | each sorted sublist keeps its length and its entries and is ascending |
| NeighborList.SortSublists | Src/Particle/AMReX_NeighborParticlesI.H:494-499 | the sorting pass turns the layout of the sublists into the layout of the sorted sublists; count slots stay in place |
| NeighborList.BuildTile | Src/Particle/AMReX_NeighborParticlesI.H:414-501 | a tile's neighbour list is the layout of the sublists of the merged particles, sorted when asked |
| Cic.CICCells | Src/Particle/AMReX_ParticleI.H:64-129 | 2^D cells of the dimension of `hicell`; in 3D the first four keep the high z and the last four take the low z |
| Cic.CICCellsBlock | Src/Particle/AMReX_ParticleI.H:79-127 | the stencil cells are pairwise distinct and are exactly the block {h-1, h}^D |
| Cic.CICCellsFracs | Src/Particle/AMReX_ParticleI.H:171-251 | equal spacing returns M = 2^D with the stencil; otherwise M is the block volume, and the cells are the block from locell to hicell, first axis fastest, distinct and inside the block |
| Cic.Cloud3 | Src/Particle/AMReX_ParticleI.H:232-247 | the three nested loops write the cells of the block, x fastest, then y, then z |
| Cic.CloudCountVolume | Src/Particle/AMReX_ParticleI.H:204 | the product of (hicell - locell + 1) over the axes is the number of cells of the block |
| Cic.StencilIsUnitCloud | Src/Particle/AMReX_ParticleI.H:179-186 | the stencil holds the same cells, and as many, as the block from h-1 to h |
| ParticleIds.NextId | Src/Particle/AMReX_ParticleI.H:344-361 | hands out the current counter value and advances the counter by one; aborts exactly when that id exceeds `LastParticleID` |
| ParticleIds.IdsPositive | Src/Particle/AMReX_ParticleI.H:2 | a counter that starts at 1 and is only advanced hands out positive ids |
| ParticleIds.TakeIds | Src/Particle/AMReX_ParticleI.H:365-371 | k calls in a row succeed iff the last id is allowed, and then hand out the consecutive, strictly increasing ids from the counter |
| ParticleIds.SuccessiveIdsIncrease | Src/Particle/AMReX_ParticleI.H:355-360 | two successful calls in a row hand out increasing ids |
| ParticleIds.SetThenNext | Src/Particle/AMReX_ParticleI.H:375-378 | after `NextID(v)`, the next call hands out v, unless v is beyond `LastParticleID` |
| ReadLimits.MaxReaders | Src/Particle/AMReX_ParticleI.H:255-280 | the first call yields min(NProcs, nreaders or 64), aborting unless positive, so a result lies in [1, NProcs]; later calls return the cached value |
| ReadLimits.MaxReadersSticks | Src/Particle/AMReX_ParticleI.H:261-279 | once computed, the value does not change whatever the parameters say later |
| ReadLimits.MaxParticlesPerRead | Src/Particle/AMReX_ParticleI.H:284-311 | the first call yields nparts_per_read or 100000, aborting unless positive; later calls return the cached value |

## Left out

- MPI transport (`getRcvCountsMPI`, `Arecv`, `Send`, `Waitall`, receive offsets): the
  model delivers buffers unchanged. The received buffers are a parameter, in order of
  sending process.
- The halo fill of the mask (`FillBoundary`): the filled mask is a parameter, a
  function from cell to (grid, tile). `InitLevelMask` is modelled for the valid cells.
- `buildNeighborListFort`: it calls a Fortran routine whose source is not part of
  this model.
- Floating point: `CIC_Fracs`, the weights of `CIC_Cells_Fracs`, `floor` in `Index`.
  The cell of a particle is a parameter (`cellOf`). The cells `floor` gives in
  `CIC_Cells_Fracs` are parameters too.
- `ParmParse` lookups become `Option` parameters. OpenMP atomics, profiling and
  `BL_ASSERT` are not modelled.
- Record padding: a compiler pads a particle to a multiple of 8 bytes when 2 + nint is
  odd, and `pdata_size` would then be 4 bytes larger than the model's record. The
  model's record has no padding, so its byte image, length facts and round trips are
  those of the unpadded layout.
- Record field widths: positions are unbounded integers. Packing writes each field as
  a word of its width, wrapping out-of-range values, so every length fact holds for any
  particle of the schema's shape. Decoding gives the particle back only when its fields
  fit their words (`Records.RecordRoundTrip`).
- Integer widths: the id counter, mask values and counts are unbounded integers. The
  wrap of `the_next_id++` at `INT_MAX` is not modelled.
- `NeighborCommTag::operator<` is defined in a header that is not part of this model.
  The outbound map is assumed ordered by (process, grid, tile). The store that results
  does not depend on this order.
- `Halo.UpdateNeighbors`: requires that every cached index names a particle of its
  tile and every cached cell has the problem's dimension. The source indexes
  `particles[particle_index]` unchecked.
- `NeighborList.BuildTile`: requires every merged particle's cell to lie in the tile
  box grown by the halo width. The source reads `head(cell)` without a check.
- `Cic.CICCellsFracs`: requires `locell <= hicell` on every axis. In the source this
  follows from a positive particle spacing. `dx_geom == dx_part` compares pointers;
  it is the `sameDx` parameter.
- Framing unpacking returns `Failure` for a truncated buffer or a negative size. The
  source reads past the end there.
- `reuse_rcv_counts` in `updateNeighbors` only affects the transport and is not
  modelled.
- `buildNeighborList` is modelled per tile (`BuildTile`). The loop over tiles that
  fills the `neighbor_list` map is not.
- `std::sort` is modelled by its contract: an ascending rearrangement (insertion sort
  as the reference).
