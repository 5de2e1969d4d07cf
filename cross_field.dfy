/**
 * compute_cross_field_with_heat (lines 440-614) from the adjacency tables
 * to the end of the heat loop. The mesh comes in as its triangles and
 * lines (the gmsh import is not part of this model), the geometry as
 * Geometry, the solve and the square root as parameters, and dtInitial,
 * dtFinal as the squares of the longest and shortest edge computed at
 * lines 519-530.
 */
module CrossField {
  import opened QmtTypes
  import opened Adjacency
  import opened Stiffness
  import opened Assembly
  import opened HeatSystem
  import opened HeatDriver

  /** How the computation ends: the four early returns with false, or true. */
  datatype Outcome = AdjacencyFailed | NoInternalEdges | StiffnessFailed | SolveFailed | Success

  /** The Dirichlet flags lines 471-483 compute for the tables. */
  ghost function DirichletFlags(tb: EdgeTables, lines: seq<Id2>): (d: seq<bool>)
    requires |tb.toOld| == |tb.uIEdges|
    ensures |d| == |tb.uIEdges|
  {
    seq(|tb.uIEdges|, e requires 0 <= e < |tb.uIEdges| => IsDirichlet(tb, lines, e))
  }

  /** Lines 492 and 508-511: the right-hand side, (1, 0) on Dirichlet edges and 0 elsewhere; x starts as it. */
  function Rhs(dirichlet: seq<bool>): (rhs: seq<real>)
    ensures |rhs| == 2 * |dirichlet|
  {
    seq(2 * |dirichlet|, r requires 0 <= r < 2 * |dirichlet| => RhsAt(dirichlet, r))
  }

  /**
   * The system the assembly leaves: the Dirichlet flags of the lines, a
   * successful stiffness computation for every free edge, the lumped mass,
   * and K's rows assembled by prepare_system from empty rows.
   */
  ghost predicate Assembled(g: Geometry, tb: EdgeTables, lines: seq<Id2>, sys: System) {
    && Indexable(tb)
    && sys.dirichlet == DirichletFlags(tb, lines)
    && AllStiffnessOk(g, tb, sys.dirichlet)
    && ValidSystem(sys)
    && (forall r :: 0 <= r < |sys.mass| ==> sys.mass[r] == MassAt(g, tb, sys.dirichlet, r))
    && var n := 2 * |sys.dirichlet|;
       Compressed(EmptyRows(n), EmptyRows(n), sys.columns, sys.values,
                  Coefficients(UnitDiagonal(n), CoefsOf(g, tb, sys.dirichlet, |sys.dirichlet|)))
  }

  /** Rows assembled from empty rows have matching column and value lists. */
  lemma CompressedRows(columns: seq<seq<nat>>, values: seq<seq<real>>, coefs: seq<IJV>, n: nat)
    requires Compressed(EmptyRows(n), EmptyRows(n), columns, values, coefs)
    ensures |columns| == |values| == n
    ensures forall i :: 0 <= i < n ==> |columns[i]| == |values[i]|
  {
    forall i | 0 <= i < n
      ensures |columns[i]| == |values[i]|
    {
      assert RowCompressed(EmptyRows(n)[i], EmptyRows(n)[i], columns[i], values[i], coefs, i);
    }
  }

  /**
   * Lines 469-545: Dirichlet marking, the assembly loop and
   * prepare_system. It fails exactly when the stiffness computation of
   * some free edge fails. On success it also returns the right-hand
   * side the loop of lines 491-517 filled in, which x starts as.
   */
  method AssembleSystem(g: Geometry, tb: EdgeTables, lines: seq<Id2>) returns (ok: bool, sys: System, rhs: seq<real>)
    requires Indexable(tb) && |tb.uIEdges| > 0
    ensures ok <==> AllStiffnessOk(g, tb, DirichletFlags(tb, lines))
    ensures ok ==> Assembled(g, tb, lines, sys) && rhs == Rhs(sys.dirichlet)
  {
    var dirichlet := MarkDirichlet(tb, lines);
    assert dirichlet == DirichletFlags(tb, lines);
    var n := |dirichlet|;
    var okS, kDiag, kCoefs, mass;
    okS, kDiag, kCoefs, rhs, mass := AssembleStiffness(g, tb, dirichlet);
    if !okS {
      return false, System([], [], [], dirichlet), rhs;
    }
    assert rhs == Rhs(dirichlet);
    CoefsRows(g, tb, dirichlet, n);
    assert forall p :: 0 <= p < |kCoefs| ==> kCoefs[p].i < 2 * n by {
      forall p | 0 <= p < |kCoefs|
        ensures kCoefs[p].i < 2 * n
      {
        assert kCoefs[p] in CoefsOf(g, tb, dirichlet, n);
      }
    }
    var okp, columns, values := PrepareSystem(kDiag, kCoefs, EmptyRows(2 * n), EmptyRows(2 * n));
    CompressedRows(columns, values, Coefficients(kDiag, kCoefs), 2 * n);
    sys := System(columns, values, mass, dirichlet);
    ok := true;
  }

  /** A row of a Dirichlet edge ends the heat loop with its right-hand side entry. */
  lemma DirichletRowFixed(g: Geometry, tb: EdgeTables, lines: seq<Id2>, sys: System,
                          solve: (seq<seq<nat>>, seq<seq<real>>, seq<real>) -> Option<seq<real>>,
                          sqrt: real -> real, dtInitial: real, dtFinal: real, r: nat)
    requires Assembled(g, tb, lines, sys) && KeepsSize(solve) && ExactSolver(solve)
    requires Run(sys, solve, sqrt, dtInitial, dtFinal, 0, Rhs(sys.dirichlet)).Some?
    requires r < 2 * |sys.dirichlet| && sys.dirichlet[r / 2]
    ensures Run(sys, solve, sqrt, dtInitial, dtFinal, 0, Rhs(sys.dirichlet)).value[r] == RhsAt(sys.dirichlet, r)
  {
    DirichletRowsAssembled(g, tb, sys.dirichlet, sys.columns, sys.values, r);
    DirichletFixed(sys, solve, sqrt, dtInitial, dtFinal, 0, Rhs(sys.dirichlet), r);
  }

  /**
   * With an exact solver the crosses of the Dirichlet edges end the heat
   * loop where lines 508-511 put them: x[2e] == 1 and x[2e + 1] == 0.
   */
  lemma DirichletCrossesFixed(g: Geometry, tb: EdgeTables, lines: seq<Id2>, sys: System,
                              solve: (seq<seq<nat>>, seq<seq<real>>, seq<real>) -> Option<seq<real>>,
                              sqrt: real -> real, dtInitial: real, dtFinal: real, e: nat)
    requires Assembled(g, tb, lines, sys) && KeepsSize(solve) && ExactSolver(solve)
    requires Run(sys, solve, sqrt, dtInitial, dtFinal, 0, Rhs(sys.dirichlet)).Some?
    requires e < |sys.dirichlet| && sys.dirichlet[e]
    ensures var x := Run(sys, solve, sqrt, dtInitial, dtFinal, 0, Rhs(sys.dirichlet)).value;
            x[2 * e] == 1.0 && x[2 * e + 1] == 0.0
  {
    assert (2 * e) / 2 == e && (2 * e + 1) / 2 == e;
    DirichletRowFixed(g, tb, lines, sys, solve, sqrt, dtInitial, dtFinal, 2 * e);
    DirichletRowFixed(g, tb, lines, sys, solve, sqrt, dtInitial, dtFinal, 2 * e + 1);
  }

  /**
   * compute_cross_field_with_heat from line 454 to line 596. It stops
   * with AdjacencyFailed exactly when some face is a pair with one NO_ID
   * endpoint, with NoInternalEdges exactly when there are no triangles,
   * with StiffnessFailed exactly when some free edge's stiffness
   * computation fails, and otherwise runs the ten heat iterations, each
   * solve failing or not as Run says; on Success x is the result of Run.
   */
  method ComputeCrossFieldWithHeat(triangles: seq<Id3>, lines: seq<Id2>, g: Geometry,
                                   solve: (seq<seq<nat>>, seq<seq<real>>, seq<real>) -> Option<seq<real>>,
                                   sqrt: real -> real, dtInitial: real, dtFinal: real)
    returns (outcome: Outcome, tb: EdgeTables, sys: System, x: seq<real>)
    requires KeepsSize(solve)
    ensures WellFormed(tb, triangles) && Indexable(tb)
    ensures outcome == AdjacencyFailed <==> exists p :: 0 <= p < 3 * |triangles| && BadEdge(Face(triangles, p))
    ensures outcome == NoInternalEdges <==>
              (forall p :: 0 <= p < 3 * |triangles| ==> !BadEdge(Face(triangles, p))) && |triangles| == 0
    ensures outcome == StiffnessFailed <==>
              && (forall p :: 0 <= p < 3 * |triangles| ==> !BadEdge(Face(triangles, p)))
              && |triangles| > 0
              && !AllStiffnessOk(g, tb, DirichletFlags(tb, lines))
    ensures outcome == SolveFailed || outcome == Success ==>
              && Assembled(g, tb, lines, sys)
              && (outcome == Success <==> Run(sys, solve, sqrt, dtInitial, dtFinal, 0, Rhs(sys.dirichlet)).Some?)
              && (outcome == Success ==> x == Run(sys, solve, sqrt, dtInitial, dtFinal, 0, Rhs(sys.dirichlet)).value)
  {
    var oka, neighbors, nm;
    oka, neighbors, nm, tb := ComputeTriangleAdjacencies(triangles);
    AcceptedIffNoBadFace(tb, triangles);
    NoUniqueEdgesIffNoTriangles(tb, triangles);
    WellFormedIndexable(tb, triangles);
    sys, x := System([], [], [], []), [];
    if !oka {
      return AdjacencyFailed, tb, sys, x;
    }
    if |tb.uIEdges| == 0 {
      return NoInternalEdges, tb, sys, x;
    }
    var oks, rhs;
    oks, sys, rhs := AssembleSystem(g, tb, lines);
    if !oks {
      return StiffnessFailed, tb, sys, x;
    }
    var okh;
    okh, x := HeatLoop(sys, solve, sqrt, dtInitial, dtFinal, rhs);
    outcome := if okh then Success else SolveFailed;
  }
}
