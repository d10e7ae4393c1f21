# honeycomb combinatorial maps, modelled in Dafny

This project models the sequential core of *honeycomb*, a Rust library of
combinatorial maps, together with the mesh kernels built on it. A 2-map
stores, for every dart, its β0, β1 and β2 images. Dart 0 is the null dart.
β1 links a dart to the next dart of its face, β0 is the inverse of β1, and
β2 links the two darts of an inner edge. The model covers:

- the β table and the 2-map class `CMap2`: adding, inserting and removing
  free darts, 1/2-linking and unlinking, the sew preconditions, cell ids
  and the face sweep of `fetch_faces`;
- the breadth-first orbit traversal `Orbit2` for each orbit policy;
- the two attribute storages, sparse (`AttrSparseVec`) and compact
  (`AttrCompactVec`);
- the grid descriptor, its parser and the closed-form β tables of quad
  grids and split-triangle grids;
- the dart-block cursors `CompactDartBlock` and `SparseDartBlock`;
- the triangulation dart-count check and geometric-anchor merging;
- the orientation check of the grid-submersion pre-processing;
- single and n-way edge splits (topology only);
- the dart-slice bookkeeping of the intersection processing.

The β table is a `seq<DartBetas>` indexed by dart id. `Betas.Consistent`
is the invariant of a well-formed map: β0 and β1 are inverse, β2 is an
involution, the null dart is free, and all images are in range. Each
rewiring is written once as a function from table to table, and its
properties are proved there. The methods on `CMap2` then apply it with
the source's `set_beta`/link calls, one at a time, and their `ensures`
ties the new table to that function. The methods follow the source as
written, including the one rewiring that can leave a map ill formed (the
n-way split, see Findings). The corrected version of that rewiring is a
separate function, and its well-formedness is proved. Rust panics (`assert!`, indexing out
of bounds) are preconditions. Dart ids are unbounded naturals. Floating
point values are `real`.

## Model

| member | source | states |
|---|---|---|
| Triangulation.CheckRequirements | honeycomb-kernels/src/triangulation/mod.rs:86-112 | 1 or 2 face darts give UndefinedFace and 3 give AlreadyTriangulated. Otherwise NotEnoughDarts/TooManyDarts carry the exact gap to 2(n-3). Ok holds iff n ≥ 4 and a = 2(n-3) |
| Triangulation.EmptyFaceReportsTooManyDarts | honeycomb-kernels/src/triangulation/mod.rs:90-108 | as written, a face of 0 darts gets past the vertex-count match and is reported as TooManyDarts(a + 6) |
| Triangulation.CheckRequirementsDocumented | honeycomb-kernels/src/triangulation/mod.rs:76-79 | every face of fewer than 3 darts, including the empty one, is UndefinedFace; on any non-empty face the result equals the check as written |
| Triangulation.DocumentedTooManyDartsNeedsPolygon | honeycomb-kernels/src/triangulation/mod.rs:106-108 | under the documented check, TooManyDarts is reported only for faces of at least 4 darts, with excess a - 2(n-3) |
| Anchors.VertexAnchorDim | honeycomb-kernels/src/utils/anchors.rs:42-49 | Node ↦ 0, Curve ↦ 1, Surface ↦ 2, Body ↦ 3 (bounded by 3, 0 iff Node, 3 iff Body) |
| Anchors.MergeVertexAnchors | honeycomb-kernels/src/utils/anchors.rs:59-105 | Ok iff the dimensions differ or the anchors are equal. The result is the lower-dimensional anchor. Otherwise FailedMerge with the same-dimension message |
| Anchors.MergeVertexAnchorsSymmetric | honeycomb-kernels/src/utils/anchors.rs:59-105 | merging vertex anchors does not depend on argument order |
| Anchors.SplitVertexAnchor | honeycomb-kernels/src/utils/anchors.rs:107-109 | split gives (a, a) |
| Anchors.MergeIncompleteVertexAnchor | honeycomb-kernels/src/utils/anchors.rs:111-113 | merge_incomplete(a) is Ok(a) |
| Anchors.VertexAnchorFromEdge | honeycomb-kernels/src/utils/anchors.rs:116-124 | the conversion keeps the id and the dimension |
| Anchors.VertexAnchorFromFace | honeycomb-kernels/src/utils/anchors.rs:126-133 | the conversion keeps the id and the dimension |
| Anchors.EdgeAnchorDim | honeycomb-kernels/src/utils/anchors.rs:158-164 | Curve ↦ 1, Surface ↦ 2, Body ↦ 3 |
| Anchors.MergeEdgeAnchors | honeycomb-kernels/src/utils/anchors.rs:174-209 | Ok iff the dimensions differ or the anchors are equal, giving the lower-dimensional one; else FailedMerge |
| Anchors.MergeEdgeAnchorsSymmetric | honeycomb-kernels/src/utils/anchors.rs:174-209 | merging edge anchors does not depend on argument order |
| Anchors.SplitEdgeAnchor | honeycomb-kernels/src/utils/anchors.rs:211-213 | split gives (a, a) |
| Anchors.MergeIncompleteEdgeAnchor | honeycomb-kernels/src/utils/anchors.rs:215-217 | merge_incomplete(a) is Ok(a) |
| Anchors.EdgeAnchorFromFace | honeycomb-kernels/src/utils/anchors.rs:220-227 | the conversion keeps the id and the dimension |
| Anchors.FaceAnchorDim | honeycomb-kernels/src/utils/anchors.rs:250-255 | Surface ↦ 2, Body ↦ 3 |
| Anchors.MergeFaceAnchors | honeycomb-kernels/src/utils/anchors.rs:265-289 | Ok iff the dimensions differ or the anchors are equal, giving the lower-dimensional one; else FailedMerge |
| Anchors.MergeFaceAnchorsSymmetric | honeycomb-kernels/src/utils/anchors.rs:265-289 | merging face anchors does not depend on argument order |
| Anchors.SplitFaceAnchor | honeycomb-kernels/src/utils/anchors.rs:291-293 | split gives (a, a) |
| Anchors.MergeIncompleteFaceAnchor | honeycomb-kernels/src/utils/anchors.rs:295-297 | merge_incomplete(a) is Ok(a) |
| Anchors.MergeCommutesWithFaceToVertex | honeycomb-kernels/src/utils/anchors.rs:126-133 | converting face anchors to vertex anchors commutes with merging: same success, same merged anchor |
| Betas.FreeDartIsNoImage | honeycomb-core/src/twomap.rs:401-405 | in a well-formed table, a free non-null dart is nobody's β image |
| Betas.WithBeta | honeycomb-core/src/twomap.rs:424-426 | writing one β image changes that entry only |
| Betas.OneLinked | honeycomb-core/src/cmap2/link_and_sew.rs:336-343 | after a 1-link, β1(l) = r and β0(r) = l, and every other entry is unchanged |
| Betas.TwoLinked | honeycomb-core/src/cmap2/link_and_sew.rs:360-367 | after a 2-link, β2(l) = r and β2(r) = l, and every other entry is unchanged |
| Betas.OneUnlinked | honeycomb-core/src/cmap2/link_and_sew.rs:380-384 | a 1-unlink clears β1(l) and β0 of its old image, and nothing else |
| Betas.TwoUnlinked | honeycomb-core/src/cmap2/link_and_sew.rs:396-400 | a 2-unlink clears β2 of l and of its old image, and nothing else |
| Betas.OneLinkThenUnlink | honeycomb-core/src/cmap2/link_and_sew.rs:336-384 | one_link then one_unlink of the same dart restores the table |
| Betas.TwoLinkThenUnlink | honeycomb-core/src/cmap2/link_and_sew.rs:360-400 | two_link then two_unlink restores the table: both β2 images are null again |
| Betas.OneLinkKeepsConsistent | honeycomb-core/src/cmap2/link_and_sew.rs:336-343 | a 1-link of a 1-free dart to a 0-free dart, both non-null, keeps the table well formed |
| Betas.TwoLinkKeepsConsistent | honeycomb-core/src/cmap2/link_and_sew.rs:360-367 | a 2-link of two 2-free non-null darts keeps the table well formed |
| Betas.OneUnlinkKeepsConsistent | honeycomb-core/src/cmap2/link_and_sew.rs:380-384 | a 1-unlink keeps the table well formed |
| Betas.TwoUnlinkKeepsConsistent | honeycomb-core/src/cmap2/link_and_sew.rs:396-400 | a 2-unlink keeps the table well formed |
| TwoMap.FreeRows | honeycomb-core/src/twomap.rs:203-210 | k rows, all free |
| TwoMap.AppendFreeRowsKeepsConsistent | honeycomb-core/src/twomap.rs:259-265 | appending free darts keeps the table well formed |
| TwoMap.CMap2.constructor | honeycomb-core/src/twomap.rs:203-210 | new(n) has n + 1 darts including the null dart, all free, and no unused dart |
| TwoMap.CMap2.BetaOf | honeycomb-core/src/twomap.rs:342-344 | a β image is always a dart of the map |
| TwoMap.CMap2.IsFree | honeycomb-core/src/twomap.rs:387-405 | a dart is free iff it is 0-, 1- and 2-free, iff its row is all null |
| TwoMap.CMap2.AddFreeDart | honeycomb-core/src/twomap.rs:238-244 | returns the old dart count, appends one free dart and keeps the map well formed |
| TwoMap.CMap2.AddFreeDarts | honeycomb-core/src/twomap.rs:259-265 | returns the first new id, appends k free darts and keeps the map well formed |
| TwoMap.CMap2.InsertFreeDart | honeycomb-core/src/twomap.rs:276-283 | reuses the smallest unused id and clears its row, or appends a free dart when none is unused |
| TwoMap.CMap2.RemoveFreeDart | honeycomb-core/src/twomap.rs:306-317 | requires a free dart that is not unused. Marks it unused; only the null dart's row can change. A second removal of the same dart is refused |
| TwoMap.CMap2.OneLink | honeycomb-core/src/cmap2/link_and_sew.rs:336-343 | requires l 1-free and r 0-free; the table becomes OneLinked and stays well formed |
| TwoMap.CMap2.TwoLink | honeycomb-core/src/cmap2/link_and_sew.rs:360-367 | requires both darts 2-free; the table becomes TwoLinked and stays well formed |
| TwoMap.CMap2.OneUnlink | honeycomb-core/src/cmap2/link_and_sew.rs:380-384 | the table becomes OneUnlinked and stays well formed |
| TwoMap.CMap2.TwoUnlink | honeycomb-core/src/cmap2/link_and_sew.rs:396-400 | the table becomes TwoUnlinked and stays well formed |
| TwoMap.CMap2.SetBeta | honeycomb-kernels/src/splits/edge_single.rs:162-163 | `set_beta` writes one β image and nothing else |
| TwoMap.CMap2.VertexId | honeycomb-core/src/twomap.rs:454-459 | the vertex id is a dart of the map, never above the given dart (that it is the orbit's minimum is Orbits.CellId) |
| TwoMap.CMap2.EdgeId | honeycomb-core/src/twomap.rs:484-487 | the edge id is never above the given dart |
| TwoMap.CMap2.FaceId | honeycomb-core/src/twomap.rs:512-515 | the face id is never above the given dart |
| TwoMap.CMap2.InsertVertex | honeycomb-core/src/twomap.rs:1021-1023 | stores the value at a vertex id that has none |
| TwoMap.CMap2.OneSew | honeycomb-core/src/cmap2/link_and_sew.rs:38-52 | when l is 2-free, r's vertex must have a value (else panic); the β result is that of one_link |
| TwoMap.CMap2.TwoSew | honeycomb-core/src/cmap2/link_and_sew.rs:94-107 | when both darts are 1-free, one of their vertices must have a value; the β result is that of two_link, so β0 and β1 are untouched |
| TwoMap.CMap2.MarkFace | honeycomb-core/src/twomap.rs:618-624 | marking a face adds exactly the darts of the face orbit |
| TwoMap.CMap2.FetchFaces | honeycomb-core/src/twomap.rs:610-630 | ids are strictly increasing, used and non-null. In a well-formed map, a used dart is listed iff it is the minimum of its face orbit |
| TwoMap.SweepCompleteOpen | honeycomb-core/src/twomap.rs:616-627 | an unmarked dart found by the sweep is its face's id, and marking its face keeps the sweep invariant |
| TwoMap.SweepCompleteSkip | honeycomb-core/src/twomap.rs:616-627 | a dart already marked is not a face id, so skipping it keeps the sweep invariant |
| Orbits.Images | honeycomb-core/src/cmap/dim2/orbits.rs:112-166 | every image a policy tries (β1∘β2 and β2∘β0 for a vertex, β2 for an edge, β1 and β0 for a face, the listed βi for a custom orbit) is a dart of the map |
| Orbits.EnqueueProps | honeycomb-core/src/cmap/dim2/orbits.rs:112-123 | trying images appends the unmarked ones, each once, to the queue and marks them |
| Orbits.StepDecreases | honeycomb-core/src/cmap/dim2/orbits.rs:107-174 | each step strictly shrinks the set of unmarked darts or the queue, so the traversal ends |
| Orbits.BfsShape | honeycomb-core/src/cmap/dim2/orbits.rs:107-174 | the traversal yields no dart twice, and after the darts already queued it yields only darts that were unmarked |
| Orbits.OrbitShape | honeycomb-core/src/cmap/dim2/orbits.rs:85-123 | the start dart comes first; no dart is yielded twice; the null dart is never yielded after the start dart, nor at all from a non-null start |
| Orbits.OrbitClosed | honeycomb-core/src/cmap/dim2/orbits.rs:107-174 | every non-null image of an orbit dart is in the orbit |
| Orbits.OrbitLeast | honeycomb-core/src/cmap/dim2/orbits.rs:107-174 | the orbit lies in every closed set holding its start dart: it is the least such set |
| Orbits.CellPoliciesReversible | honeycomb-core/src/twomap.rs:440-448 | in a well-formed map, every vertex, edge and face step can be walked back |
| Orbits.OrbitOfMember | honeycomb-core/src/twomap.rs:440-448 | for those policies, any dart of an orbit has the same orbit as a set |
| Orbits.CellId | honeycomb-core/src/twomap.rs:440-459 | a cell id is the smallest dart of the orbit: it is in the orbit and below every member |
| Orbits.CellIdSharedByMembers | honeycomb-core/src/twomap.rs:440-448 | a cell id can be computed from any dart of the cell |
| Orbits.EmptyCustomOrbit | honeycomb-core/src/cmap/dim2/orbits.rs:290-295 | a custom orbit with no β index yields only its start dart |
| Orbits.EdgeOrbit | honeycomb-core/src/cmap/dim2/orbits.rs:134-142 | in a well-formed map, the edge orbit is [d] for a boundary dart and [d, β2(d)] otherwise |
| Orbits.FaceLinearFollowsBeta1 | honeycomb-core/src/cmap/dim2/orbits.rs:159-166 | each dart of a face-linear orbit is β1 of the previous one |
| Orbits.FaceOrbitSecondDart | honeycomb-core/src/cmap/dim2/orbits.rs:143-158 | the face orbit tries β1 before β0: its second dart is β1(d) when new, else β0(d), and it is [d] when neither is new |
| Orbits.CustomOrbitOfSimpleMap | honeycomb-core/src/cmap/dim2/orbits.rs:224-232 | on the two-triangles-and-a-pentagon test map, Custom [1, 2] from dart 3 yields exactly 3, 1, 2, 4, ..., 11 |
| Orbits.Orbit2.constructor | honeycomb-core/src/cmap/dim2/orbits.rs:85-100 | the orbit starts with the start dart pending and the null and start darts marked, so it will yield OrbitSeq |
| Orbits.Orbit2.Next | honeycomb-core/src/cmap/dim2/orbits.rs:107-174 | pops the queue head, marks and queues its unmarked images in policy order, and yields it (None on an empty queue); what is left to yield shrinks by the yielded dart. A custom index ≥ 3 is excluded as the panic it is |
| AttributeCollections.CountSomeUpdate | honeycomb-core/src/cells/attribute_collections.rs:55-57 | writing one slot changes the number of stored values by the change in that slot |
| AttributeCollections.PushThenSwapRemove | honeycomb-core/src/cells/attribute_collections.rs:153-176 | push then swap_remove at i is "replace slot i and return the old value", and returns the pushed value when i is the old length |
| AttributeCollections.AttrSparseVec.constructor | honeycomb-core/src/cells/attribute_collections.rs:45-49 | n empty slots, no stored value |
| AttributeCollections.AttrSparseVec.Extend | honeycomb-core/src/cells/attribute_collections.rs:51-53 | appends empty slots; the stored count is unchanged |
| AttributeCollections.AttrSparseVec.NVertices | honeycomb-core/src/cells/attribute_collections.rs:55-57 | the number of ids holding a value, never more than the number of ids |
| AttributeCollections.AttrSparseVec.Set | honeycomb-core/src/cells/attribute_collections.rs:110-112 | overwrites the slot unconditionally; the count grows iff it was empty |
| AttributeCollections.AttrSparseVec.Insert | honeycomb-core/src/cells/attribute_collections.rs:130-134 | requires an empty slot (else panic), stores the value, count + 1 |
| AttributeCollections.AttrSparseVec.Replace | honeycomb-core/src/cells/attribute_collections.rs:153-156 | returns the old value and stores the new one; at index = length (a push, then a swap-remove) it returns the given value and changes nothing |
| AttributeCollections.AttrSparseVec.Remove | honeycomb-core/src/cells/attribute_collections.rs:173-176 | returns the old value and leaves None, so a second remove returns None; the count drops iff a value was removed; index = length returns None |
| AttributeCollections.View | honeycomb-core/src/cells/attribute_collections.rs:235-237 | the value an id sees through the index map |
| AttributeCollections.InvAfterUnmap | honeycomb-core/src/cells/attribute_collections.rs:277-284 | unmapping an id and freeing its slot keeps the compact-storage invariant |
| AttributeCollections.AttrCompactVec.constructor | honeycomb-core/src/cells/attribute_collections.rs:219-225 | n unmapped ids, no data, no free slot |
| AttributeCollections.AttrCompactVec.Extend | honeycomb-core/src/cells/attribute_collections.rs:227-229 | appends unmapped ids; the contents gain that many None |
| AttributeCollections.AttrCompactVec.NVertices | honeycomb-core/src/cells/attribute_collections.rs:231-233 | as written, the data length: the stored values plus the freed slots |
| AttributeCollections.AttrCompactVec.NStored | honeycomb-core/src/cells/attribute_collections.rs:231-233 | the number of ids holding a value, as the sparse storage counts it |
| AttributeCollections.AttrCompactVec.Get | honeycomb-core/src/cells/attribute_collections.rs:235-237 | reads the id's value through the index map: the id's entry of the contents |
| AttributeCollections.AttrCompactVec.Set | honeycomb-core/src/cells/attribute_collections.rs:243-256 | the id now holds the value. The write goes in place if the id is mapped, else in the last freed slot, else a new slot is pushed |
| AttributeCollections.AttrCompactVec.Insert | honeycomb-core/src/cells/attribute_collections.rs:258-268 | requires an unmapped id (else panic); reuses the last freed slot or pushes |
| AttributeCollections.AttrCompactVec.Replace | honeycomb-core/src/cells/attribute_collections.rs:270-275 | requires a mapped id (else panic); returns the old value, stores the new one, and the index map and free list are unchanged |
| AttributeCollections.AttrCompactVec.Remove | honeycomb-core/src/cells/attribute_collections.rs:277-284 | unmaps the id and pushes its slot on the free list, so a later get is None; an unmapped id gives None and changes nothing |
| AttributeCollections.CompactCountAfterRemoval | honeycomb-core/src/cells/attribute_collections.rs:231-284 | after insert then remove at id 0, the compact count is 1 while nothing is stored |
| Grid.SetAxis | honeycomb-core/src/cmap/builder/grid.rs:38-67 | a single-axis setter sets that axis. The other axes keep their values when the field was set, and become zero when it was not |
| Grid.SetAxisTwice | honeycomb-core/src/cmap/builder/grid.rs:38-67 | setting the same axis twice keeps the second value |
| Grid.SetAxesCommute | honeycomb-core/src/cmap/builder/grid.rs:38-67 | setters of different axes commute |
| Grid.GridDescriptor.WithNCells | honeycomb-core/src/cmap/builder/grid.rs:31-34 | the all-axes setter stores the triple and nothing else |
| Grid.GridDescriptor.WithNCellsAxis | honeycomb-core/src/cmap/builder/grid.rs:38-67 | `n_cells_x/y/z`: as SetAxis with zero 0, other fields untouched |
| Grid.GridDescriptor.WithLenPerCell | honeycomb-core/src/cmap/builder/grid.rs:31-34 | stores the triple, other fields untouched |
| Grid.GridDescriptor.WithLenPerCellAxis | honeycomb-core/src/cmap/builder/grid.rs:38-67 | `len_per_cell_x/y/z`: as SetAxis with zero 0.0 |
| Grid.GridDescriptor.WithLens | honeycomb-core/src/cmap/builder/grid.rs:31-34 | stores the triple, other fields untouched |
| Grid.GridDescriptor.WithLensAxis | honeycomb-core/src/cmap/builder/grid.rs:38-67 | `lens_x/y/z`: as SetAxis with zero 0.0 |
| Grid.GridDescriptor.WithOrigin | honeycomb-core/src/cmap/builder/grid.rs:90-93 | sets the origin only |
| Grid.GridDescriptor.WithSplitQuads | honeycomb-core/src/cmap/builder/grid.rs:97-100 | sets the split flag only |
| Grid.SettersFromDefault | honeycomb-core/src/cmap/builder/grid.rs:38-56 | x then y setters on an unset field give (nx, ny, 0) |
| Grid.Ceil | honeycomb-core/src/cmap/builder/grid.rs:148-149 | the least integer not below its argument |
| Grid.Parse2D | honeycomb-core/src/cmap/builder/grid.rs:105-161 | MissingGridParameters iff no accepted pair is given; otherwise only InvalidGridParameters. An Ok result keeps the origin, has positive cell sizes and uses the given counts and cell lengths. With total lengths, n·len equals the total, or covers it with one cell fewer falling short (the ceiling) |
| Grid.CeilCover | honeycomb-core/src/cmap/builder/grid.rs:146-149 | ⌈l/p⌉ cells of size p cover l, and one fewer does not |
| Grid.Parse2DReportsFirstInvalid | honeycomb-core/src/cmap/builder/grid.rs:105-150 | an accepted pair is rejected iff a length it uses is ≤ 0; the message names the first such length in checking order, x before y |
| Grid.Parse2DIgnoresZ | honeycomb-core/src/cmap/builder/grid.rs:117-161 | z components never change the outcome |
| Grid.Parse2DIgnoresLens | honeycomb-core/src/cmap/builder/grid.rs:119-128 | with counts and cell lengths given, the total lengths are ignored |
| Grid.CellDartNeighbours | honeycomb-core/src/cmap/builder/grid.rs:263-270 | the offsets ±4nx, ±6 and ±6nx used for β2 land on the adjacent cell's darts |
| Grid.GenerateSquareBetaValues | honeycomb-core/src/cmap/builder/grid.rs:257-274 | yields 4·nx·ny rows |
| Grid.GenerateTrisBetaValues | honeycomb-core/src/cmap/builder/grid.rs:364-382 | yields 6·nx·ny rows |
| Grid.GridTableIndex | honeycomb-core/src/cmap/builder/grid.rs:257-382 | row d of the generated table is the row of dart d in its cell (ix, iy), in left-to-right, bottom-to-top order |
| Grid.AcrossIsInvolution | honeycomb-core/src/cmap/builder/grid.rs:263-379 | the side across from the side across is the side itself |
| Grid.FaceCycle | honeycomb-core/src/cmap/builder/grid.rs:263-379 | in every cell β1 runs the face cycle (d1→d2→d3→d4→d1, or the two 3-cycles) and β0 is its inverse |
| Grid.GridConsistent | honeycomb-core/src/cmap/builder/grid.rs:257-382 | both generated tables, with the null row, are well-formed maps: β0/β1 inverse, β2 an involution |
| Grid.SquareBoundary | honeycomb-core/src/cmap/builder/grid.rs:266-269 | in the quad grid, β2 of a side is null iff the side lies on the grid boundary (bottom, right, top or left edge of the grid) |
| Grid.TriangleDiagonal | honeycomb-core/src/cmap/builder/grid.rs:370-374 | in the split grid, β2(d2) = d4 and β2(d4) = d2 along every cell's diagonal |
| Darts.ConsecutiveRangesAreDisjoint | honeycomb-core/src/cmap/components/darts.rs:91-94 | ranges that tile an interval in order are disjoint and ordered |
| Darts.CompactDartBlock.constructor | honeycomb-core/src/cmap/components/darts.rs:25-49 | a block of size darts from start, cursor at start, nothing taken |
| Darts.CompactDartBlock.TakeN | honeycomb-core/src/cmap/components/darts.rs:89-97 | if n ≠ 0 and cursor + n ≤ start + SIZE, returns [cursor, cursor + n) and advances the cursor; otherwise None and the cursor stays (so take_n(0) is None) |
| Darts.CompactDartBlock.TakeRemaining | honeycomb-core/src/cmap/components/darts.rs:106-108 | returns [cursor, start + SIZE), possibly empty. Everything taken so far, then this range, is exactly the block, in order |
| Darts.SparseDartBlock.constructor | honeycomb-core/src/cmap/components/darts.rs:120-144 | a block over the given darts, cursor 0 |
| Darts.SparseDartBlock.TakeN | honeycomb-core/src/cmap/components/darts.rs:184-192 | if n ≠ 0 and c + n ≤ SIZE, returns darts[c..c+n] and advances; otherwise None, cursor unchanged |
| Darts.SparseDartBlock.TakeRemaining | honeycomb-core/src/cmap/components/darts.rs:202-204 | returns darts[cursor..]; everything taken, then this, is the whole dart list |
| PreProcessing.DetectOrientationIssue | honeycomb-kernels/src/grisubal/routines/pre_processing.rs:21-36 | Ok iff no vertex is the origin of two segments and none is the endpoint of two; else InconsistentOrientation |
| PreProcessing.AppendSegmentOriented | honeycomb-kernels/src/grisubal/routines/pre_processing.rs:27-35 | one step of the scan: a boundary extended by a segment stays oriented iff it was, and the segment's origin is not yet an origin and its endpoint not yet an endpoint |
| PreProcessing.DistinctIffFullCardinality | honeycomb-kernels/src/grisubal/routines/pre_processing.rs:24-33 | a list has no repeated element iff its set has as many elements as the list |
| PreProcessing.OrientationIgnoresSegmentOrder | honeycomb-kernels/src/grisubal/routines/pre_processing.rs:24-33 | reordering the segments does not change whether the check fails |
| Splits.ChainOneConsistent | honeycomb-kernels/src/splits/edge_multiple.rs:228-239 | threading fresh darts one after another by β1 keeps the table well formed |
| Splits.ChainOneLinks | honeycomb-kernels/src/splits/edge_multiple.rs:228-239 | after the chain, β1 runs p, ds[0], ..., ds[n-1] |
| Splits.ChainTwoLinks | honeycomb-kernels/src/splits/edge_multiple.rs:248-256 | the second-side chain links its darts by β1 and pairs each predecessor by β2 with the mate across |
| Splits.ChainTwoConsistent | honeycomb-kernels/src/splits/edge_multiple.rs:248-256 | the second-side chain keeps the table well formed |
| EdgeMultiple.SplitnFirstRun | honeycomb-kernels/src/splits/edge_multiple.rs:228-241 | after the split, β1 runs b, fh[0], ..., fh[n-1], then the old β1(b) |
| EdgeMultiple.SplitnSecondRun | honeycomb-kernels/src/splits/edge_multiple.rs:244-259 | on a two-dart edge, β1 runs β2(b), sh[0], ..., then the old β1(β2(b)) |
| EdgeMultiple.SplitnPairs | honeycomb-kernels/src/splits/edge_multiple.rs:244-261 | β2 pairs [β2(b)] + sh with reversed fh + [b]; the last second-half dart is paired with b |
| EdgeMultiple.SplitnOneSided | honeycomb-kernels/src/splits/edge_multiple.rs:219-221 | on a one-dart edge, b and the new darts stay 2-free |
| EdgeMultiple.SplitnFrame | honeycomb-kernels/src/splits/edge_multiple.rs:191-263 | only the edge's darts, their old β1 images and the new darts change |
| EdgeMultiple.SplitnConsistent | honeycomb-kernels/src/splits/edge_multiple.rs:191-263 | the rewiring with null-guarded closing links keeps the table well formed |
| EdgeMultiple.SplitnAsWrittenLinksNull | honeycomb-kernels/src/splits/edge_multiple.rs:244-261 | as written, on a two-dart edge whose second dart is 1-free, the null dart gets a β0 image and the table is no longer well formed |
| EdgeMultiple.ExampleSplit | honeycomb-kernels/src/splits/edge_multiple.rs:36-80 | the documented example: 1→3→4→5 and 2→6→7→8 by β1 with 5 and 8 1-free, and 1↔8, 3↔7, 4↔6, 5↔2 by β2 |
| EdgeMultiple.ExampleSplitAsWritten | honeycomb-kernels/src/splits/edge_multiple.rs:36-81 | the same example as written leaves β0(null) = 8 |
| EdgeMultiple.InnerChecks | honeycomb-kernels/src/splits/edge_multiple.rs:198-216 | VertexBound iff a position is outside ]0, 1[. Otherwise UndefinedEdge iff an end vertex has no value. Ok iff neither |
| EdgeMultiple.InnerSplitn | honeycomb-kernels/src/splits/edge_multiple.rs:191-263 | returns InnerChecks' verdict. An error leaves the table alone; success applies SplitnAsWritten, the closing links to a null old β1 image included |
| EdgeMultiple.NoAllocChecks | honeycomb-kernels/src/splits/edge_multiple.rs:159-184 | WrongAmountDarts(2n, len) iff len ≠ 2n; then InvalidDarts if a dart is not free, a first-half dart is null, or (on a two-dart edge) a second-half dart is null; None iff all pass |
| EdgeMultiple.CheckNewDarts | honeycomb-kernels/src/splits/edge_multiple.rs:159-184 | the checks made on the map agree with NoAllocChecks |
| EdgeMultiple.SplitnEdgeNoAlloc | honeycomb-kernels/src/splits/edge_multiple.rs:152-187 | returns the first failing check, else InnerChecks' verdict. An error leaves the table alone; success applies SplitnAsWritten with the first n darts on b's side and the last n on β2(b)'s side |
| EdgeMultiple.NewDartCount | honeycomb-kernels/src/splits/edge_multiple.rs:96-104 | n new darts for a one-dart edge, 2n for a two-dart edge |
| EdgeMultiple.FreshDartsReady | honeycomb-kernels/src/splits/edge_multiple.rs:96-107 | the appended darts satisfy everything the rewiring needs |
| EdgeMultiple.AllocateHalves | honeycomb-kernels/src/splits/edge_multiple.rs:96-107 | appends n or 2n free darts; the second half is n null darts for a one-dart edge |
| EdgeMultiple.SplitnEdge | honeycomb-kernels/src/splits/edge_multiple.rs:83-108 | always appends the new darts. An error is InnerChecks' verdict and leaves them free; success applies SplitnAsWritten with them |
| EdgeSingle.OneSidedSplitShape | honeycomb-kernels/src/splits/edge_single.rs:152-170 | on a one-dart edge, β1 runs b → new → old β1(b), β0 back, and no β2 appears |
| EdgeSingle.OneSidedSplitConsistent | honeycomb-kernels/src/splits/edge_single.rs:152-170 | the one-dart split keeps the table well formed iff the old β1(b) is not null |
| EdgeSingle.TwoSidedSplitConsistent | honeycomb-kernels/src/splits/edge_single.rs:171-204 | the two-dart split keeps the table well formed |
| EdgeSingle.TwoSidedSplitShape | honeycomb-kernels/src/splits/edge_single.rs:193-204 | afterwards β1: b → n1 and b2 → n2, and β2: b ↔ n2 and b2 ↔ n1 |
| EdgeSingle.SplitFrame | honeycomb-kernels/src/splits/edge_single.rs:148-210 | only the edge's darts, their old β1 images and the new darts change |
| EdgeSingle.InnerSplit | honeycomb-kernels/src/splits/edge_single.rs:148-210 | UndefinedEdge, table unchanged, iff an end vertex has no value; otherwise applies SplitTable, which is well formed while the null dart has no vertex |
| EdgeSingle.SplitPreChecks | honeycomb-kernels/src/splits/edge_single.rs:124-141 | VertexBound first, then InvalidDarts for a null or non-free first dart, then for the second one on a two-dart edge |
| EdgeSingle.SplitEdgeNoAlloc | honeycomb-kernels/src/splits/edge_single.rs:117-144 | reports the first failing pre-check. Otherwise InnerSplit's verdict: an error leaves the table alone, success applies SplitTable |
| EdgeSingle.AllocateSplitDarts | honeycomb-kernels/src/splits/edge_single.rs:66-71 | appends one free dart for a one-dart edge, two for a two-dart edge |
| EdgeSingle.SplitEdge | honeycomb-kernels/src/splits/edge_single.rs:53-75 | VertexBound before any change; otherwise appends the new darts and splits with them |
| Intersections.DartsPerEdge | honeycomb-kernels/src/grisubal/routines/process_intersecs_data.rs:48 | each edge needs two darts per intersection |
| Intersections.ScanIsPrefixSum | honeycomb-kernels/src/grisubal/routines/process_intersecs_data.rs:53-60 | the scan yields, for each edge, the sum of the counts before it |
| Intersections.DartSliceAt | honeycomb-kernels/src/grisubal/routines/process_intersecs_data.rs:62-69 | slice k is the nd[k] consecutive darts starting after all earlier slices |
| Intersections.DartSlicesTile | honeycomb-kernels/src/grisubal/routines/process_intersecs_data.rs:48-69 | together the slices are first, first+1, ..., first+total-1 in order: contiguous, disjoint, starting at the first new dart |
| Intersections.DartSlicesOrdered | honeycomb-kernels/src/grisubal/routines/process_intersecs_data.rs:48-69 | every dart of an earlier slice precedes every dart of a later one |
| Intersections.ComputeIntersectionIds | honeycomb-kernels/src/grisubal/routines/process_intersecs_data.rs:74-95 | the array filled by the loop equals IntersectionIds: n null darts with each group's writes applied in order |
| Intersections.IntersectionIdOf | honeycomb-kernels/src/grisubal/routines/process_intersecs_data.rs:84-92 | with distinct indices, an own-side intersection gets fh[i] and the other side gets sh[hl-1-i] |
| Intersections.UnsetIdsAreNull | honeycomb-kernels/src/grisubal/routines/process_intersecs_data.rs:79 | positions no intersection names stay null; the result has length n |
| Intersections.SlicesFitGroups | honeycomb-kernels/src/grisubal/routines/process_intersecs_data.rs:63-84 | with the allocated slices, each group's half-length is its intersection count, and the two sides of an intersection get different darts |

## Left out

- `benches/grisubal.py`, `benches/builder.py` and the plotting scripts: they only launch external programs (cargo, perf, flamegraph, heaptrack) and redirect or plot output, so they have no logic to state.
- Floating point: coordinates and parameters are `real`. NaN, infinities, signed zero and rounding are not modelled. Nor is anything computed from coordinates: the new vertices of the splits, the vertex averaging inside the sews, and the geometric part of triangulation (`fetch_face_vertices`, cross products).
- Integer widths: dart ids and counts are unbounded. `u32`/`usize` overflow and the signed cast in `check_requirements` are not modelled.
- The vertex writes of the splits (`insert_vertex`, `force_write_vertex` of each new vertex) are not modelled; only the presence of the two end vertices, which decides UndefinedEdge, is.
- STM/transactional and concurrent maps, 3-maps, rendering and VTK I/O are outside this model, as are the older duplicate versions of these files.
- `get_mut` of both attribute storages is left out: it hands out a mutable reference, which has no counterpart on values.
- `group_intersections_per_edge`: NaN filtering, the t ↦ 1 - t adjustment, grouping by edge id, sorting by t and the `HashMap` iteration order are not modelled. The groups are inputs; only the dart counts, prefix sums and slices built from them are.
- `Darts.CompactDartBlock.constructor`: the `TryFrom` search of the map for unused darts is not modelled; the block starts from a given range. The same holds for Darts.SparseDartBlock.constructor, which starts from a given dart list.
- `Anchors.MergeVertexAnchors`: the error carries the short type name (`"VertexAnchor"`) rather than the full path `std::any::type_name` produces. The same holds for Anchors.MergeEdgeAnchors (`"EdgeAnchor"`) and Anchors.MergeFaceAnchors (`"FaceAnchor"`).
- `Grid.Parse2D`: requires non-zero cell counts when the grid is given by cell counts and total lengths, because dividing by a zero count yields an infinite float that `real` cannot represent.
- `Grid.GenerateSquareBetaValues`: its own contract states only the length; the row contents are stated by Grid.GridTableIndex, Grid.FaceCycle, Grid.GridConsistent and Grid.SquareBoundary. The same holds for Grid.GenerateTrisBetaValues with Grid.TriangleDiagonal.
- `TwoMap.CMap2.VertexId`: its own contract states only that the id does not exceed the dart; that it is the orbit's minimum and is shared by the whole cell is stated by Orbits.CellId and Orbits.CellIdSharedByMembers. The same holds for TwoMap.CMap2.EdgeId and TwoMap.CMap2.FaceId.
- `TwoMap.CMap2.OneSew`: the merge of the two vertex values when l has a β2 image is not modelled; only the panic condition and the 1-link are.
- `TwoMap.CMap2.TwoSew`: the merges of vertex values in the cases where a dart has a β1 image are not modelled; only the (both 1-free) panic condition and the 2-link are.
- `EdgeMultiple.SplitnEdgeNoAlloc`: requires the given darts to be distinct (nulls aside), in range and different from the edge's dart, and requires a well-formed map whose edge dart is non-null and not its own β2 image; the source assumes these without checking them.
- `EdgeSingle.SplitEdgeNoAlloc`: requires the new darts to be distinct from each other and from the edge's dart, in a well-formed map; the source assumes these without checking them.
- `EdgeSingle.SplitEdge`: requires a well-formed map and a non-null edge dart that is not its own β2 image; the same holds for EdgeMultiple.SplitnEdge.
- `Darts.CompactDartBlock.TakeRemaining`: the source consumes the block; the model leaves it in place, unused afterwards. The same holds for Darts.SparseDartBlock.TakeRemaining.
- `TwoMap.CMap2.FetchFaces`: returns the sorted face ids only, not the `FaceCollection` wrapper holding a map reference.

## Findings

| source | as written | input that shows it | evidently intended | confidence | as-written member | corrected member |
|---|---|---|---|---|---|---|
| honeycomb-kernels/src/splits/edge_multiple.rs:241, 259 | The closing `force_link::<1>(prev_d, b1d1_old)`, and the same for `b1d2_old`, runs even when the old β1 image is the null dart. The single split guards this link (edge_single.rs:196-201) | The documented example: edge 1 ↔ 2, both darts 1-free, positions 0.25, 0.5, 0.75. β0 of the null dart ends up as 8 | skip the closing link when the old image is null, as the single split does, so the map stays well formed | medium; not executed | EdgeMultiple.InnerSplitn, EdgeMultiple.SplitnAsWrittenLinksNull, EdgeMultiple.ExampleSplitAsWritten | EdgeMultiple.SplitnConsistent |
| honeycomb-kernels/src/triangulation/mod.rs:90-108 | the vertex-count match catches only 1, 2 and 3 darts | a face of 0 darts with a allocated darts gives TooManyDarts(a + 6) | UndefinedFace for every face of fewer than 3 vertices, as the function's documentation lists | medium; not executed | Triangulation.EmptyFaceReportsTooManyDarts | Triangulation.CheckRequirementsDocumented |
| honeycomb-core/src/cells/attribute_collections.rs:231-233 | the compact storage's `n_vertices` returns `data.len()`, which keeps the slots that removals free | insert at id 0, then remove id 0: the count is 1, yet nothing is stored | the number of stored values, as the sparse storage's `n_vertices` counts | low; not executed | AttributeCollections.CompactCountAfterRemoval | AttributeCollections.AttrCompactVec.NStored |
