# Cross-field core of the quad-meshing tools, in Dafny

This project models the combinatorial core of
`contrib/QuadMeshingTools/qmt_cross_field.cpp`, which computes a cross
field on a triangle mesh by heat diffusion. The field has two unknowns per
unique edge, `(cos 4θ, sin 4θ)`. The project proves properties of each
part:

- **`sorted`**. It orders a vertex pair.
- **`compute_triangle_adjacencies`**. It lists the sorted vertex pair of
  every local edge (the *face position* `3t + lf`). It deduplicates these
  pairs into unique edges with `sort_unique_with_perm`, then builds the
  occurrence lists. Finally it classifies every unique edge:
  - A *boundary* edge (one occurrence) leaves its slot `NO_ID`.
  - A *regular* edge (two occurrences) makes the two slots point at each
    other.
  - A *non-manifold* edge (`k > 2` occurrences) adds `k` entries to a side
    table, and each slot stores `-(pos + 1)`.

  The builder refuses a unique edge with exactly one `NO_ID` endpoint.
- **`stiffness_coefficient`**. This part covers its index and failure
  structure:
  - which checks fail;
  - the two diagonal entries;
  - the 16 coupling entries to the four neighbour edges;
  - the weight normalisation.

  Lengths, frames, angles, Crouzeix–Raviart weights, `cos`, `sin` and
  triangle areas are uninterpreted functions in a `Geometry` value.
- **`prepare_system`**. It concatenates the coupling and diagonal entries
  and sorts them by (row, column). It then sums runs of equal keys and
  appends each sum above `EPS` to its row.
- **`compute_cross_field_with_heat`**, from the adjacency tables to the
  end of the heat loop:
  - Dirichlet marking.
  - The assembly loop, with the free-edge and Dirichlet-edge branches,
    the lumped mass and the right-hand side.
  - The per-iteration rewrite to `I + dt M⁻¹ K`, where a Dirichlet row
    becomes `{1}`.
  - The solve, which is a parameter.
  - Renormalisation of the crosses, which skips Dirichlet edges.
  - The ten-iteration loop.

The model keeps the source's imperative form. Loops that `push_back` are
methods with loop invariants, and `triangle_neighbors` is an `array2<int>`
updated in place. Each method is proved against a specification function:
- `ExpectedSlot` and `NmTable` for the adjacencies;
- `Couplings` for the stiffness entries;
- `Compressed` over `SumAt` for the assembled rows;
- `ImplicitValues`, `Renormalized` and `Run` for the heat loop.

The lemmas then prove what the program promises about those functions.
Two of them are end-to-end results:
- `HeatDriver.ImplicitEulerStep`: with an exact solver, the linear solve
  of one iteration (before the free rows are renormalised) is an implicit
  Euler step of `M x' = -K x` on every free row that keeps its diagonal
  entry.
- `CrossField.DirichletCrossesFixed`: with an exact solver, every Dirichlet
  edge ends the loop at `(1, 0)`.

The formula at line 559 reads like an interpolation between `dtInitial`
and `dtFinal`, but `iter/(nbIter-1)` is an integer division, so `dt` is
`dtInitial` on iterations 0–8 and `dtFinal` on the last one. The model
follows the code (`HeatDriver.TimeStep`).

## Model

| member | source | states |
|---|---|---|
| QmtTypes.Sorted | contrib/QuadMeshingTools/qmt_cross_field.cpp:66 | the result's first id is at most its second, and the pair is (v1, v2) or (v2, v1) |
| SortUnique.SortUniqueWithPerm | contrib/QuadMeshingTools/qmt_cross_field.cpp:107-108 | the unique values are strictly increasing and each occurs in the input; old2new[p] is the index of values[p] among them, so every input value is among them; the count returned is their number |
| Adjacency.BuildFaces | contrib/QuadMeshingTools/qmt_cross_field.cpp:97-105 | faces is, in face-position order, the sorted pair of local vertices lf and (lf + 1) % 3 of every triangle |
| Adjacency.UniqueEdgeOfFace | contrib/QuadMeshingTools/qmt_cross_field.cpp:97-108 | uIEdges[old2IEdge[3i + lf]] is the sorted pair of local edge lf of triangle i |
| Adjacency.BuildEdgeToOld | contrib/QuadMeshingTools/qmt_cross_field.cpp:110-117 | there is one occurrence list per unique edge, and list u is the positions p with old2IEdge[p] == u, in increasing order |
| Adjacency.OccurrencesAre | contrib/QuadMeshingTools/qmt_cross_field.cpp:111-117 | an occurrence list is strictly increasing and holds exactly the positions mapped to its edge |
| Adjacency.OccurrencesPartition | contrib/QuadMeshingTools/qmt_cross_field.cpp:111-117 | the lists partition the face positions: p is in list u iff u == old2IEdge[p]; every list is strictly increasing |
| Adjacency.BuildTables | contrib/QuadMeshingTools/qmt_cross_field.cpp:97-117 | the three tables are well formed: the unique edges are strictly sorted faces, each position maps to the edge equal to its face, and the lists are the occurrence lists |
| Adjacency.NoUniqueEdgesIffNoTriangles | contrib/QuadMeshingTools/qmt_cross_field.cpp:108 | there are no unique edges exactly when there are no triangles |
| Adjacency.CollectOthers | contrib/QuadMeshingTools/qmt_cross_field.cpp:140-145 | neighs is the list without its elements equal to x, in list order |
| Adjacency.OthersSkipsOne | contrib/QuadMeshingTools/qmt_cross_field.cpp:140-145 | in a duplicate-free list, the others of element j are the list with index j removed |
| Adjacency.SetNonManifold | contrib/QuadMeshingTools/qmt_cross_field.cpp:137-150 | the side table gains one entry per occurrence (the others of it), occurrence j's slot becomes -(pos + 1) for that entry's index pos, and no other slot changes |
| Adjacency.NmTablePrefix | contrib/QuadMeshingTools/qmt_cross_field.cpp:147-148 | the side table only grows: its state after the edges before u is a prefix of its state after the edges before w ≥ u |
| Adjacency.NmTableEntry | contrib/QuadMeshingTools/qmt_cross_field.cpp:136-150 | entry L + j of the final side table exists, L being the length of NmTable(u), and lists the others of occurrence j of non-manifold edge u |
| Adjacency.NonManifoldEntry | contrib/QuadMeshingTools/qmt_cross_field.cpp:136-150 | that entry is the occurrence list of u without occurrence j: the other k − 1 occurrences, in increasing order |
| Adjacency.NonManifoldSlot | contrib/QuadMeshingTools/qmt_cross_field.cpp:147-149 | given that the builder accepted the tables, the slot of occurrence j of a non-manifold edge u holds -(pos + 1) with pos == L + j (L the length of NmTable(u)), the index of the entry NonManifoldEntry describes |
| Adjacency.BoundarySlot | contrib/QuadMeshingTools/qmt_cross_field.cpp:125-128 | the one occurrence of a boundary edge keeps its slot NO_ID |
| Adjacency.RegularSlotsMutual | contrib/QuadMeshingTools/qmt_cross_field.cpp:129-135 | the two occurrences of a regular edge are distinct, and the slot of (e1, lf1) holds 3·e2 + lf2 while the slot of (e2, lf2) holds 3·e1 + lf1 |
| Adjacency.SetSlot | contrib/QuadMeshingTools/qmt_cross_field.cpp:128 | assigning slot [q / 3][q % 3] changes flattened slot q and no other |
| Adjacency.ClassifyBoundary | contrib/QuadMeshingTools/qmt_cross_field.cpp:125-128 | the slot of the edge's occurrence becomes its expected value (NO_ID) and all other slots are unchanged |
| Adjacency.ClassifyRegular | contrib/QuadMeshingTools/qmt_cross_field.cpp:129-135 | the two slots of the edge's occurrences take their expected values and all other slots are unchanged |
| Adjacency.ClassifyNonManifold | contrib/QuadMeshingTools/qmt_cross_field.cpp:136-151 | the side table advances by this edge's entries, the edge's slots take their expected values, and all other slots are unchanged |
| Adjacency.ClassifyEdge | contrib/QuadMeshingTools/qmt_cross_field.cpp:125-151 | for every occurrence count of an accepted edge, the side table advances by that edge and exactly that edge's slots take their expected values |
| Adjacency.SlotsDoneSkip | contrib/QuadMeshingTools/qmt_cross_field.cpp:122 | skipping the {NO_ID, NO_ID} pair leaves its slots NO_ID, which is their expected value |
| Adjacency.ClassifyStep | contrib/QuadMeshingTools/qmt_cross_field.cpp:121-152 | one pass accepts the edge iff it is not a pair with exactly one NO_ID endpoint; on acceptance the side table and the classified slots advance by one edge |
| Adjacency.ClassifyAll | contrib/QuadMeshingTools/qmt_cross_field.cpp:119-152 | the loop succeeds iff no unique edge is refused; then the side table is NmTable over all edges and every slot holds ExpectedSlot |
| Adjacency.AcceptedIffNoBadFace | contrib/QuadMeshingTools/qmt_cross_field.cpp:120-124 | no unique edge is refused iff no face of any triangle is a pair with exactly one NO_ID endpoint |
| Adjacency.ComputeTriangleAdjacencies | contrib/QuadMeshingTools/qmt_cross_field.cpp:83-159 | the slot array is n × 3 and the tables are well formed; the result is true iff no unique edge is refused, and then the side table is NmTable and slot [t][lf] is ExpectedSlot(3t + lf) |
| Stiffness.NeighborIsOtherLocalEdge | contrib/QuadMeshingTools/qmt_cross_field.cpp:255-270 | neighbour position 3t + (le + 1 + k) % 3 lies in the same triangle as occurrence s and is a different local edge; the two neighbours of one triangle are distinct |
| Stiffness.EndpointCase | contrib/QuadMeshingTools/qmt_cross_field.cpp:292-303 | the case is one of 0–3 exactly when the neighbour edge shares an endpoint with e, and 4 (the error return) otherwise |
| Stiffness.VisitNeighbor | contrib/QuadMeshingTools/qmt_cross_field.cpp:270-304 | the neighbour edge is old2IEdge of the neighbour position; the visit succeeds iff that edge is long enough and shares an endpoint; on success it yields the angle and the raw weight of the matching case |
| Stiffness.CollectTriangle | contrib/QuadMeshingTools/qmt_cross_field.cpp:269-306 | the inner loop succeeds iff both neighbours of triangle s pass their checks; then it fills entries 2s and 2s + 1 of bvars, alpha and CR_weight |
| Stiffness.CollectNeighbors | contrib/QuadMeshingTools/qmt_cross_field.cpp:254-307 | the loop over the two triangles succeeds iff both frames are non-degenerate and all four neighbours pass; then bvars, alpha and CR_weight hold the four neighbours' values |
| Stiffness.Normalize | contrib/QuadMeshingTools/qmt_cross_field.cpp:310 | every weight is divided by isum |
| Stiffness.WeightsSumToMinusOne | contrib/QuadMeshingTools/qmt_cross_field.cpp:309-310 | when isum ≠ 0 the four normalised weights sum to −1 |
| Stiffness.EmitCouplings | contrib/QuadMeshingTools/qmt_cross_field.cpp:314-325 | 16 entries are pushed: the four rotation blocks of the neighbours, in bvars order |
| Stiffness.CouplingsAreBlocks | contrib/QuadMeshingTools/qmt_cross_field.cpp:318-325 | the coupling list is the concatenation of the four blocks the loop pushes |
| Stiffness.BlockShape | contrib/QuadMeshingTools/qmt_cross_field.cpp:319-324 | a block has 4 entries, with rows 2e or 2e + 1 and columns 2b or 2b + 1 |
| Stiffness.CouplingsShape | contrib/QuadMeshingTools/qmt_cross_field.cpp:314-325 | a regular edge has exactly 16 couplings; their rows are 2e or 2e + 1, and their columns are unknowns of one of the four neighbour edges |
| Stiffness.StiffnessCoefficient | contrib/QuadMeshingTools/qmt_cross_field.cpp:227-328 | the computation succeeds iff the edge has two occurrences, is long enough, both frames are non-degenerate and all four neighbours pass; failure leaves iv and ijv as given; success gives iv == [(2e, 1), (2e + 1, 1)] and ijv == Couplings |
| Assembly.Coefficients | contrib/QuadMeshingTools/qmt_cross_field.cpp:335-337 | the entries are K_coefs followed, in order, by one (i, i, val) entry per diagonal entry |
| Assembly.SortByKey | contrib/QuadMeshingTools/qmt_cross_field.cpp:338 | the output is sorted by (row, column) and is a permutation of the input |
| Assembly.SumAtPermutation | contrib/QuadMeshingTools/qmt_cross_field.cpp:338 | reordering the entries changes no (row, column) sum |
| Assembly.EmittedInitially | contrib/QuadMeshingTools/qmt_cross_field.cpp:340-342 | before the pass nothing has been appended, and no key below the first one has a nonzero sum |
| Assembly.KeyChange | contrib/QuadMeshingTools/qmt_cross_field.cpp:343-362 | where the key changes, the accumulated sum of the old key is complete, the new key starts from zero, and no key strictly between the two has an entry |
| Assembly.AdvanceAll | contrib/QuadMeshingTools/qmt_cross_field.cpp:347-362 | appending the finished sum when it exceeds EPS moves every row's loop state from the old key to the new one |
| Assembly.Flush | contrib/QuadMeshingTools/qmt_cross_field.cpp:348-351 | the append when abs(acc) > EPS preserves the loop state as the bound moves to the next key |
| Assembly.AboveLast | contrib/QuadMeshingTools/qmt_cross_field.cpp:367-370 | no key above the last one has an entry, so the final append completes every row |
| Assembly.Compact | contrib/QuadMeshingTools/qmt_cross_field.cpp:340-370 | after the pass, row r has gained, in strictly increasing column order, exactly the columns c whose sum at (r, c) exceeds EPS, each with that sum |
| Assembly.EmittedIsCompressed | contrib/QuadMeshingTools/qmt_cross_field.cpp:338-371 | the rows appended from the sorted entries are the assembled rows of the unsorted entries |
| Assembly.PrepareSystem | contrib/QuadMeshingTools/qmt_cross_field.cpp:330-373 | it returns true; every row keeps its given prefix and gains strictly increasing columns; each value is the sum of all entries (diagonal ones included) at its (row, column); a column appears iff that sum's magnitude exceeds EPS |
| HeatSystem.FindEdge | contrib/QuadMeshingTools/qmt_cross_field.cpp:477 | the result is the first index holding the edge, or the length when there is none |
| HeatSystem.MarkDirichlet | contrib/QuadMeshingTools/qmt_cross_field.cpp:469-483 | edge e is flagged iff it does not have two occurrences or it is where std::find lands for some line's sorted endpoints |
| HeatSystem.DirichletIff | contrib/QuadMeshingTools/qmt_cross_field.cpp:471-483 | for the builder's tables, an edge is Dirichlet iff its occurrence count ≠ 2 or some line's sorted endpoints equal it |
| HeatSystem.AssembleFreeEdge | contrib/QuadMeshingTools/qmt_cross_field.cpp:492-505 | a free edge fails iff its stiffness computation fails; otherwise it pushes (2e, 1), (2e + 1, 1) and its 16 couplings and sets both mass entries to a third of its two triangle areas |
| HeatSystem.AssembleEdge | contrib/QuadMeshingTools/qmt_cross_field.cpp:491-516 | one edge fails iff it is free and its stiffness computation fails; a Dirichlet edge pushes only diagonal entries (2e, 1), (2e + 1, 1) and sets rhs to (1, 0); a free edge adds its couplings and mass and leaves rhs |
| HeatSystem.AssembledStart | contrib/QuadMeshingTools/qmt_cross_field.cpp:487-490 | empty lists, rhs all 0 and Mass all 1 are the assembled state of zero edges |
| HeatSystem.CoefsStep | contrib/QuadMeshingTools/qmt_cross_field.cpp:495-501 | an edge that succeeds extends the success of the first e edges and their coupling list by its own couplings (none for a Dirichlet edge) |
| HeatSystem.UnitDiagonalStep | contrib/QuadMeshingTools/qmt_cross_field.cpp:508-510 | the diagonal entries of edges 0..m are those of edges 0..m − 1 followed by (2m, 1), (2m + 1, 1) |
| HeatSystem.VectorsStep | contrib/QuadMeshingTools/qmt_cross_field.cpp:502-511 | one edge's writes to rhs and Mass extend the final values from the first e edges to the first e + 1 |
| HeatSystem.AssembleStep | contrib/QuadMeshingTools/qmt_cross_field.cpp:491-517 | one pass fails iff the edge is free and its stiffness fails; otherwise the assembled state advances from e to e + 1 edges |
| HeatSystem.AssembleStiffness | contrib/QuadMeshingTools/qmt_cross_field.cpp:487-517 | the loop fails iff some free edge's stiffness computation fails; on success K_diag is (r, 1) for every unknown r, K_coefs the couplings of the free edges in edge order, and rhs and Mass are RhsAt and MassAt |
| HeatSystem.CouplingRow | contrib/QuadMeshingTools/qmt_cross_field.cpp:314-325 | every coupling of edge e has a row of e (row / 2 == e) |
| HeatSystem.CoefsRows | contrib/QuadMeshingTools/qmt_cross_field.cpp:491-505 | every coupling entry lies in a row of a free edge |
| HeatSystem.CoefficientsOfUnitDiagonal | contrib/QuadMeshingTools/qmt_cross_field.cpp:335-337 | prepare_system's entries for the assembled diagonal are the couplings followed by (r, r, 1) for every unknown r |
| HeatSystem.SumAtUnitDiagonal | contrib/QuadMeshingTools/qmt_cross_field.cpp:337 | the entries (r, r, 1) for r < m sum to 1 at (r, r) with r < m and to 0 at every other key |
| HeatSystem.DirichletRowSums | contrib/QuadMeshingTools/qmt_cross_field.cpp:506-511 | in a row of a Dirichlet edge the only nonzero sum of the assembled entries is 1, on the diagonal |
| HeatSystem.SingleEntryRow | contrib/QuadMeshingTools/qmt_cross_field.cpp:340-370 | a row assembled from empty whose only nonzero sum is 1 at (r, r) is exactly the column list [r] with values [1] |
| HeatSystem.DirichletRowsAssembled | contrib/QuadMeshingTools/qmt_cross_field.cpp:506-511 | after prepare_system, each row of a Dirichlet edge has columns [r] and values [1] |
| HeatDriver.TimeStep | contrib/QuadMeshingTools/qmt_cross_field.cpp:557-559 | dt is dtInitial on iterations 0–8 and dtFinal on iteration 9 |
| HeatDriver.RewriteRow | contrib/QuadMeshingTools/qmt_cross_field.cpp:565-571 | each value of a free row becomes dt / Mass[i] times the stiffness value, plus 1 on the diagonal column |
| HeatDriver.BuildImplicit | contrib/QuadMeshingTools/qmt_cross_field.cpp:560-575 | Aval is ImplicitValues: free rows rewritten, Dirichlet rows {1} |
| HeatDriver.ImplicitRowProduct | contrib/QuadMeshingTools/qmt_cross_field.cpp:563-571 | on a strictly increasing row, the rewritten row times y is y[i] (when the row holds column i) plus dt / Mass[i] times the stiffness row times y |
| HeatDriver.SolvedRow | contrib/QuadMeshingTools/qmt_cross_field.cpp:578 | row i of a solution an exact solver returns reproduces b[i] |
| HeatDriver.ImplicitEulerStep | contrib/QuadMeshingTools/qmt_cross_field.cpp:559-578 | with an exact solver, each free row satisfies x_new[i] (when the row holds its diagonal) plus dt / Mass[i] times (K x_new)[i] equals x_old[i]: an implicit Euler step of M x' = −K x |
| HeatDriver.RenormalizedAt | contrib/QuadMeshingTools/qmt_cross_field.cpp:589-595 | a free edge of norm above EPS is divided by its norm; every other edge, Dirichlet ones in particular, keeps both entries |
| HeatDriver.Renormalize | contrib/QuadMeshingTools/qmt_cross_field.cpp:588-595 | the in-place loop leaves x equal to Renormalized of its old value |
| HeatDriver.RenormalizeUnit | contrib/QuadMeshingTools/qmt_cross_field.cpp:590-594 | with a true square root, a rescaled edge has norm one afterwards |
| HeatDriver.IdempotentAt | contrib/QuadMeshingTools/qmt_cross_field.cpp:588-595 | after renormalisation every edge the second pass would rescale has norm exactly 1 |
| HeatDriver.RenormalizeIdempotent | contrib/QuadMeshingTools/qmt_cross_field.cpp:588-595 | renormalising twice gives the same vector as renormalising once |
| HeatDriver.HeatLoop | contrib/QuadMeshingTools/qmt_cross_field.cpp:555-596 | the ten iterations succeed iff Run does (no solve fails), and then x is Run's result |
| HeatDriver.IdentityRow | contrib/QuadMeshingTools/qmt_cross_field.cpp:573 | an exact solution of a system whose row r is {1} at column r keeps b[r] |
| HeatDriver.StepKeepsDirichletRow | contrib/QuadMeshingTools/qmt_cross_field.cpp:573-595 | one iteration keeps x[r] on a Dirichlet row holding only its diagonal, solve and renormalisation both |
| HeatDriver.DirichletFixed | contrib/QuadMeshingTools/qmt_cross_field.cpp:558-596 | x[r] on such a row survives every remaining iteration |
| CrossField.AssembleSystem | contrib/QuadMeshingTools/qmt_cross_field.cpp:469-551 | assembly fails iff some free edge's stiffness computation fails; on success the system holds the Dirichlet flags, MassAt and the rows prepare_system assembles from empty rows, and the returned right-hand side is (1, 0) on Dirichlet edges and 0 elsewhere |
| CrossField.DirichletRowFixed | contrib/QuadMeshingTools/qmt_cross_field.cpp:506-596 | with an exact solver, each row of a Dirichlet edge ends the heat loop at its rhs value |
| CrossField.DirichletCrossesFixed | contrib/QuadMeshingTools/qmt_cross_field.cpp:506-596 | with an exact solver, every Dirichlet edge ends the heat loop with x[2e] == 1 and x[2e + 1] == 0 |
| CrossField.ComputeCrossFieldWithHeat | contrib/QuadMeshingTools/qmt_cross_field.cpp:454-596 | the run stops at the adjacency check iff some face has exactly one NO_ID endpoint, at "no internal edges" iff there are no triangles, at the stiffness check iff some free edge fails; otherwise the system is assembled, and, starting from the assembled right-hand side, the result is Success iff no solve fails, with x == Run |

## Left out

- Mesh import (`import_TMesh_from_gmsh`, lines 161-195), `gmsh::initialize`, the visualisation views (`create_view_with_crosses`, lines 375-437 and 599-602), every `info`/`error` message and the `DBG_VERBOSE` blocks. These are I/O. The model takes the triangles and lines as sequences and ends after the heat loop.
- Floating-point geometry. This covers `triangle_area`, `triangle_normal` (including its too-small error value, lines 206-209), the flip of the second normal (259), `atan2` and the angle wrap to [0, 2π) (286-287), `angle_nvectors`, `tan`, `cos` and `sin`. These are uninterpreted functions of `Stiffness.Geometry`, and the model computes with exact reals, not IEEE doubles.
- The edge-length statistics (lines 519-530) and `dtFinal = emin²`, `dtInitial = emax²` (554-555). These are floating point. `dtInitial` and `dtFinal` are parameters.
- The export of the angles into `edge_to_angle` (lines 604-611). It is floating point and output only.
- `solve_sparse_linear_system` (line 578). It is an external solver and is a function parameter that may fail. HeatLoop and ComputeCrossFieldWithHeat require only that it keeps the size of the right-hand side. The lemmas about its result further assume it solves exactly (`ExactSolver`).
- `std::sqrt` (lines 590 and 607). It is a parameter. Only the idempotence and unit-norm lemmas assume it is a true square root (`IsSqrt`).
- SortUnique.SortUniqueWithPerm: `qmt_utils.hpp` is not part of this model. The helper is specified by the contract its use at lines 108-117 needs, and the body is a simple insertion-based implementation of that contract.
- `NO_ID` and the id types: `qmt_types.hpp` is not part of this model. Ids are taken to be 32-bit unsigned, with `NO_ID` their largest value. Neighbour slots are unbounded `int`s, not a 32-bit `sid`.
- Fixed-width wrap-around. Face positions, unknown indices `2e + 1` and `-(pos + 1)` are computed on unbounded integers, so overflow of `id`/`sid` on meshes beyond 2³¹ face positions is not modelled.
- Division by zero. The weights divide by `isum` and the rewrite divides by `Mass[i]`. IEEE arithmetic gives infinities or NaNs there, while the model's `Quot` gives 0. Results on such inputs are not claimed.
- `id2Hash` (lines 68-72). It is not used by the modelled code.
- The `nbIter` argument. Line 557 overwrites it with 10, so the model uses the constant `NB_ITER`.
- The `nbc` counter (lines 469-483). It only feeds a log message.
- The `norms` vector of lines 588-595. It is a local array in `HeatDriver.Renormalize`, and it is not returned because the source only logs it.
- The `okp` failure branch (lines 539-542). `PrepareSystem` always returns true, so that branch cannot run. `CrossField.AssembleSystem` does not model it.
- Assembly.SortByKey: `std::sort` is not stable, and the model's insertion sort fixes one order among equal keys. Only the sums per key are used later, and they do not depend on that order (`SumAtPermutation`).
