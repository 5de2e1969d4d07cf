/**
 * The set-up half of compute_cross_field_with_heat: marking the Dirichlet
 * edges (lines 471-483), gathering the stiffness, mass and right-hand-side
 * entries edge by edge (lines 486-517), and the shape of the assembled
 * rows of a Dirichlet edge.
 */
module HeatSystem {
  import opened QmtTypes
  import opened Adjacency
  import opened Stiffness
  import opened Assembly

  /** std::find: the first index of x in s, or |s| when x does not occur. */
  method FindEdge(s: seq<Id2>, x: Id2) returns (k: nat)
    ensures k <= |s|
    ensures k < |s| ==> s[k] == x
    ensures forall a :: 0 <= a < k ==> s[a] != x
  {
    k := 0;
    while k < |s| && s[k] != x
      invariant k <= |s|
      invariant forall a :: 0 <= a < k ==> s[a] != x
    {
      k := k + 1;
    }
  }

  /** e is the first index of its value in s. */
  ghost predicate FirstOccurrence(s: seq<Id2>, e: nat)
    requires e < |s|
  {
    forall a :: 0 <= a < e ==> s[a] != s[e]
  }

  /** One of the first m lines, with its endpoints sorted, is unique edge e. */
  ghost predicate OnLine(uIEdges: seq<Id2>, lines: seq<Id2>, m: nat, e: nat)
    requires m <= |lines| && e < |uIEdges|
  {
    exists l :: 0 <= l < m && Sorted(lines[l].v0, lines[l].v1) == uIEdges[e]
  }

  /**
   * Lines 471-483: edge e is Dirichlet when it does not have exactly two
   * occurrences, or when it is where std::find lands for one of the lines.
   */
  ghost predicate IsDirichlet(tb: EdgeTables, lines: seq<Id2>, e: nat)
    requires |tb.toOld| == |tb.uIEdges| && e < |tb.uIEdges|
  {
    |tb.toOld[e]| != 2 || (OnLine(tb.uIEdges, lines, |lines|, e) && FirstOccurrence(tb.uIEdges, e))
  }

  /** On the tables the adjacency builder produces, an edge is Dirichlet iff it is not regular or lies on a line. */
  lemma DirichletIff(tb: EdgeTables, triangles: seq<Id3>, lines: seq<Id2>, e: nat)
    requires WellFormed(tb, triangles) && e < |tb.uIEdges|
    ensures IsDirichlet(tb, lines, e) <==>
              |tb.toOld[e]| != 2 || exists l :: 0 <= l < |lines| && Sorted(lines[l].v0, lines[l].v1) == tb.uIEdges[e]
  {
    assert FirstOccurrence(tb.uIEdges, e) by {
      forall a | 0 <= a < e
        ensures tb.uIEdges[a] != tb.uIEdges[e]
      {
        assert Less(tb.uIEdges[a], tb.uIEdges[e]);
      }
    }
  }

  /** Lines 471-483: the Dirichlet flag of every unique edge. */
  method MarkDirichlet(tb: EdgeTables, lines: seq<Id2>) returns (dirichlet: seq<bool>)
    requires |tb.toOld| == |tb.uIEdges|
    ensures |dirichlet| == |tb.uIEdges|
    ensures forall e :: 0 <= e < |dirichlet| ==> (dirichlet[e] <==> IsDirichlet(tb, lines, e))
  {
    var n := |tb.uIEdges|;
    var d := new bool[n](_ => false);
    for e := 0 to n
      invariant forall a :: 0 <= a < n ==> (d[a] <==> a < e && |tb.toOld[a]| != 2)
    {
      if |tb.toOld[e]| != 2 {
        d[e] := true;
      }
    }
    for l := 0 to |lines|
      invariant forall a :: 0 <= a < n ==>
                  (d[a] <==> |tb.toOld[a]| != 2 || (OnLine(tb.uIEdges, lines, l, a) && FirstOccurrence(tb.uIEdges, a)))
    {
      var edge := Sorted(lines[l].v0, lines[l].v1);
      var idx := FindEdge(tb.uIEdges, edge);
      if idx < n {
        d[idx] := true;
      }
      forall a | 0 <= a < n
        ensures OnLine(tb.uIEdges, lines, l + 1, a) && FirstOccurrence(tb.uIEdges, a) <==>
                  (OnLine(tb.uIEdges, lines, l, a) && FirstOccurrence(tb.uIEdges, a)) || a == idx
      {
        if a == idx {
          assert Sorted(lines[l].v0, lines[l].v1) == tb.uIEdges[a];
        }
        if OnLine(tb.uIEdges, lines, l + 1, a) && !OnLine(tb.uIEdges, lines, l, a) && FirstOccurrence(tb.uIEdges, a) {
          var l' :| 0 <= l' < l + 1 && Sorted(lines[l'].v0, lines[l'].v1) == tb.uIEdges[a];
          assert l' == l;
          assert a == idx by {
            assert idx <= a < n;
            assert tb.uIEdges[idx] == tb.uIEdges[a];
          }
        }
      }
    }
    dirichlet := d[..];
  }

  /** The coupling entries of the first m edges: those of every non-Dirichlet edge, in edge order. */
  function CoefsOf(g: Geometry, tb: EdgeTables, dirichlet: seq<bool>, m: nat): seq<IJV>
    requires Indexable(tb) && m <= |dirichlet| == |tb.uIEdges|
    requires forall e :: 0 <= e < m && !dirichlet[e] ==> Regular(tb, e)
  {
    if m == 0 then []
    else CoefsOf(g, tb, dirichlet, m - 1) + (if dirichlet[m - 1] then [] else Couplings(g, tb, m - 1))
  }

  /** Lines 508-511 and 492: rhs is (1, 0) on a Dirichlet edge and (0, 0) elsewhere. */
  function RhsAt(dirichlet: seq<bool>, r: nat): real
    requires r < 2 * |dirichlet|
  {
    if dirichlet[r / 2] && r % 2 == 0 then 1.0 else 0.0
  }

  /** Lines 502-505 and 493: the lumped mass, a third of the two triangle areas, and 1 on a Dirichlet edge. */
  function MassAt(g: Geometry, tb: EdgeTables, dirichlet: seq<bool>, r: nat): real
    requires |tb.toOld| == |dirichlet| && r < 2 * |dirichlet|
  {
    var e := r / 2;
    if dirichlet[e] || |tb.toOld[e]| != 2 then 1.0
    else 1.0 / 3.0 * (g.area(tb.toOld[e][0] / 3) + g.area(tb.toOld[e][1] / 3))
  }

  /** The stiffness computation of every free edge among the first m succeeds. */
  ghost predicate OkUpTo(g: Geometry, tb: EdgeTables, dirichlet: seq<bool>, m: nat)
    requires Indexable(tb) && m <= |dirichlet| == |tb.uIEdges|
  {
    forall e :: 0 <= e < m && !dirichlet[e] ==> StiffnessOk(g, tb, e)
  }

  /** Every free edge's stiffness computation succeeds. */
  ghost predicate AllStiffnessOk(g: Geometry, tb: EdgeTables, dirichlet: seq<bool>)
    requires Indexable(tb) && |dirichlet| == |tb.uIEdges|
  {
    OkUpTo(g, tb, dirichlet, |dirichlet|)
  }

  /** An edge whose computation succeeds extends OkUpTo, and CoefsOf, by that edge. */
  lemma CoefsStep(g: Geometry, tb: EdgeTables, dirichlet: seq<bool>, e: nat)
    requires Indexable(tb) && e < |dirichlet| == |tb.uIEdges|
    requires OkUpTo(g, tb, dirichlet, e) && (dirichlet[e] || StiffnessOk(g, tb, e))
    ensures OkUpTo(g, tb, dirichlet, e + 1)
    ensures CoefsOf(g, tb, dirichlet, e + 1)
            == CoefsOf(g, tb, dirichlet, e) + if dirichlet[e] then [] else Couplings(g, tb, e)
  {
  }

  /** The diagonal of 2(m + 1) rows extends that of 2m rows by the two entries of edge m. */
  lemma UnitDiagonalStep(m: nat)
    ensures UnitDiagonal(2 * (m + 1)) == UnitDiagonal(2 * m) + [IV(2 * m, 1.0), IV(2 * m + 1, 1.0)]
  {
    var a, b := UnitDiagonal(2 * (m + 1)), UnitDiagonal(2 * m) + [IV(2 * m, 1.0), IV(2 * m + 1, 1.0)];
    assert |a| == |b|;
    forall r | 0 <= r < |a|
      ensures a[r] == b[r]
    {
      if r < 2 * m {
        assert b[r] == UnitDiagonal(2 * m)[r];
      }
    }
  }

  /**
   * Lines 492-516, one edge: a free edge adds its stiffness entries and its
   * lumped mass, a Dirichlet edge its two unit diagonal entries and the
   * right-hand side (1, 0). It fails exactly when the stiffness computation
   * of a free edge fails.
   */
  method AssembleEdge(g: Geometry, tb: EdgeTables, dirichlet: seq<bool>, e: nat,
                      kDiag: seq<IV>, kCoefs: seq<IJV>, rhs: seq<real>, mass: seq<real>)
    returns (ok: bool, kDiag': seq<IV>, kCoefs': seq<IJV>, rhs': seq<real>, mass': seq<real>)
    requires Indexable(tb) && |dirichlet| == |tb.uIEdges| && e < |dirichlet|
    requires |rhs| == |mass| == 2 * |dirichlet|
    ensures ok <==> dirichlet[e] || StiffnessOk(g, tb, e)
    ensures ok ==> kDiag' == kDiag + [IV(2 * e, 1.0), IV(2 * e + 1, 1.0)]
    ensures ok ==> kCoefs' == kCoefs + if dirichlet[e] then [] else Couplings(g, tb, e)
    ensures ok ==> rhs' == if dirichlet[e] then rhs[2 * e := 1.0][2 * e + 1 := 0.0] else rhs
    ensures ok ==> mass' == if dirichlet[e] then mass
                            else mass[2 * e := MassAt(g, tb, dirichlet, 2 * e)][2 * e + 1 := MassAt(g, tb, dirichlet, 2 * e + 1)]
  {
    kDiag', kCoefs', rhs', mass' := kDiag, kCoefs, rhs, mass;
    if !dirichlet[e] {
      ok, kDiag', kCoefs', mass' := AssembleFreeEdge(g, tb, dirichlet, e, kDiag, kCoefs, mass);
    } else {
      kDiag' := kDiag' + [IV(2 * e, 1.0)];
      rhs' := rhs'[2 * e := 1.0];
      kDiag' := kDiag' + [IV(2 * e + 1, 1.0)];
      rhs' := rhs'[2 * e + 1 := 0.0];
      ok := true;
    }
  }

  /** Lines 494-504: a free edge adds its stiffness entries and its lumped mass, unless its stiffness computation fails. */
  method AssembleFreeEdge(g: Geometry, tb: EdgeTables, dirichlet: seq<bool>, e: nat,
                          kDiag: seq<IV>, kCoefs: seq<IJV>, mass: seq<real>)
    returns (ok: bool, kDiag': seq<IV>, kCoefs': seq<IJV>, mass': seq<real>)
    requires Indexable(tb) && |dirichlet| == |tb.uIEdges| && e < |dirichlet| && !dirichlet[e]
    requires |mass| == 2 * |dirichlet|
    ensures ok <==> StiffnessOk(g, tb, e)
    ensures ok ==> kDiag' == kDiag + [IV(2 * e, 1.0), IV(2 * e + 1, 1.0)]
    ensures ok ==> kCoefs' == kCoefs + Couplings(g, tb, e)
    ensures ok ==> mass' == mass[2 * e := MassAt(g, tb, dirichlet, 2 * e)][2 * e + 1 := MassAt(g, tb, dirichlet, 2 * e + 1)]
  {
    kDiag', kCoefs', mass' := kDiag, kCoefs, mass;
    assert (2 * e) / 2 == e && (2 * e + 1) / 2 == e;
    var oks, iv, ijv := StiffnessCoefficient(g, tb, e, [], []);
    if !oks {
      return false, kDiag', kCoefs', mass';
    }
    kDiag' := kDiag' + iv;
    kCoefs' := kCoefs' + ijv;
    var area1 := g.area(tb.toOld[e][0] / 3);
    var area2 := g.area(tb.toOld[e][1] / 3);
    mass' := mass'[2 * e := 1.0 / 3.0 * (area1 + area2)];
    mass' := mass'[2 * e + 1 := 1.0 / 3.0 * (area1 + area2)];
    assert MassAt(g, tb, dirichlet, 2 * e) == MassAt(g, tb, dirichlet, 2 * e + 1) == 1.0 / 3.0 * (area1 + area2);
    ok := true;
  }

  /** rhs and mass hold their final values on the rows of the first e edges and their initial values above. */
  ghost predicate VectorsUpTo(g: Geometry, tb: EdgeTables, dirichlet: seq<bool>, rhs: seq<real>, mass: seq<real>, e: nat)
    requires |tb.toOld| == |dirichlet|
  {
    && |rhs| == |mass| == 2 * |dirichlet|
    && (forall r :: 0 <= r < |rhs| ==> rhs[r] == if r < 2 * e then RhsAt(dirichlet, r) else 0.0)
    && (forall r :: 0 <= r < |mass| ==> mass[r] == if r < 2 * e then MassAt(g, tb, dirichlet, r) else 1.0)
  }

  /** One edge's writes to rhs and the mass extend VectorsUpTo by that edge. */
  lemma VectorsStep(g: Geometry, tb: EdgeTables, dirichlet: seq<bool>, rhs: seq<real>, mass: seq<real>, e: nat)
    requires |tb.toOld| == |dirichlet| && e < |dirichlet|
    requires VectorsUpTo(g, tb, dirichlet, rhs, mass, e)
    ensures VectorsUpTo(g, tb, dirichlet,
                        if dirichlet[e] then rhs[2 * e := 1.0][2 * e + 1 := 0.0] else rhs,
                        if dirichlet[e] then mass
                        else mass[2 * e := MassAt(g, tb, dirichlet, 2 * e)][2 * e + 1 := MassAt(g, tb, dirichlet, 2 * e + 1)],
                        e + 1)
  {
    assert (2 * e) / 2 == e && (2 * e + 1) / 2 == e;
  }

  /**
   * The state of the loop of lines 491-517 once the first e edges are
   * assembled: each of them has pushed its diagonal entries (2e, 1) and
   * (2e + 1, 1), the free ones their coupling entries, and the rows of the
   * first e edges of rhs and the mass hold RhsAt and MassAt.
   */
  ghost predicate AssembledUpTo(g: Geometry, tb: EdgeTables, dirichlet: seq<bool>, e: nat,
                                kDiag: seq<IV>, kCoefs: seq<IJV>, rhs: seq<real>, mass: seq<real>)
    requires Indexable(tb) && e <= |dirichlet| == |tb.uIEdges|
  {
    && OkUpTo(g, tb, dirichlet, e)
    && kDiag == UnitDiagonal(2 * e)
    && kCoefs == CoefsOf(g, tb, dirichlet, e)
    && VectorsUpTo(g, tb, dirichlet, rhs, mass, e)
  }

  /** Before the loop of lines 491-517 nothing is assembled; rhs starts at 0 and the mass at 1 (lines 492-493). */
  lemma AssembledStart(g: Geometry, tb: EdgeTables, dirichlet: seq<bool>, rhs: seq<real>, mass: seq<real>)
    requires Indexable(tb) && |dirichlet| == |tb.uIEdges|
    requires |rhs| == |mass| == 2 * |dirichlet|
    requires forall r :: 0 <= r < |rhs| ==> rhs[r] == 0.0
    requires forall r :: 0 <= r < |mass| ==> mass[r] == 1.0
    ensures AssembledUpTo(g, tb, dirichlet, 0, [], [], rhs, mass)
  {
  }

  /** One pass of the loop of lines 491-517: AssembledUpTo advances from e to e + 1 unless edge e fails. */
  method AssembleStep(g: Geometry, tb: EdgeTables, dirichlet: seq<bool>, e: nat,
                      kDiag: seq<IV>, kCoefs: seq<IJV>, rhs: seq<real>, mass: seq<real>)
    returns (ok: bool, kDiag': seq<IV>, kCoefs': seq<IJV>, rhs': seq<real>, mass': seq<real>)
    requires Indexable(tb) && e < |dirichlet| == |tb.uIEdges|
    requires AssembledUpTo(g, tb, dirichlet, e, kDiag, kCoefs, rhs, mass)
    ensures ok <==> dirichlet[e] || StiffnessOk(g, tb, e)
    ensures ok ==> AssembledUpTo(g, tb, dirichlet, e + 1, kDiag', kCoefs', rhs', mass')
  {
    ok, kDiag', kCoefs', rhs', mass' := AssembleEdge(g, tb, dirichlet, e, kDiag, kCoefs, rhs, mass);
    if ok {
      CoefsStep(g, tb, dirichlet, e);
      UnitDiagonalStep(e);
      VectorsStep(g, tb, dirichlet, rhs, mass, e);
    }
  }

  /**
   * Lines 491-517. The loop fails exactly when some free edge's stiffness
   * computation fails. On success every edge has pushed its two diagonal
   * entries (2e, 1) and (2e + 1, 1), the coupling entries are those of the
   * free edges, and rhs and the mass are as RhsAt and MassAt say.
   */
  method AssembleStiffness(g: Geometry, tb: EdgeTables, dirichlet: seq<bool>)
    returns (ok: bool, kDiag: seq<IV>, kCoefs: seq<IJV>, rhs: seq<real>, mass: seq<real>)
    requires Indexable(tb) && |dirichlet| == |tb.uIEdges|
    ensures ok <==> AllStiffnessOk(g, tb, dirichlet)
    ensures ok ==> AssembledUpTo(g, tb, dirichlet, |dirichlet|, kDiag, kCoefs, rhs, mass)
  {
    var n := |dirichlet|;
    kDiag, kCoefs := [], [];
    rhs := seq(2 * n, _ => 0.0);
    mass := seq(2 * n, _ => 1.0);
    AssembledStart(g, tb, dirichlet, rhs, mass);
    for e := 0 to n
      invariant AssembledUpTo(g, tb, dirichlet, e, kDiag, kCoefs, rhs, mass)
    {
      var oke;
      oke, kDiag, kCoefs, rhs, mass := AssembleStep(g, tb, dirichlet, e, kDiag, kCoefs, rhs, mass);
      if !oke {
        return false, kDiag, kCoefs, rhs, mass;
      }
    }
    ok := true;
  }

  /** The coupling entries of a regular edge e sit in its two rows. */
  lemma CouplingRow(g: Geometry, tb: EdgeTables, e: nat, x: IJV)
    requires Indexable(tb) && Regular(tb, e) && x in Couplings(g, tb, e)
    ensures x.i / 2 == e
  {
    CouplingsShape(g, tb, e);
  }

  /** Coupling entries sit in the rows of free edges only. */
  lemma {:induction false} CoefsRows(g: Geometry, tb: EdgeTables, dirichlet: seq<bool>, m: nat)
    requires Indexable(tb) && m <= |dirichlet| == |tb.uIEdges|
    requires forall e :: 0 <= e < m && !dirichlet[e] ==> Regular(tb, e)
    ensures forall x :: x in CoefsOf(g, tb, dirichlet, m) ==> x.i / 2 < m && !dirichlet[x.i / 2]
  {
    if m > 0 {
      var prev := CoefsOf(g, tb, dirichlet, m - 1);
      CoefsRows(g, tb, dirichlet, m - 1);
      if dirichlet[m - 1] {
        assert CoefsOf(g, tb, dirichlet, m) == prev + [];
        assert prev + [] == prev;
      } else {
        var cs := Couplings(g, tb, m - 1);
        assert CoefsOf(g, tb, dirichlet, m) == prev + cs;
        forall x: IJV | x in cs
          ensures x.i / 2 == m - 1
        {
          CouplingRow(g, tb, m - 1, x);
        }
        AppendRows(prev, cs, dirichlet, m);
      }
    }
  }

  /** Appending the rows of free edge m - 1 to coefficients whose rows are free edges below m - 1. */
  lemma AppendRows(prev: seq<IJV>, cs: seq<IJV>, dirichlet: seq<bool>, m: nat)
    requires 0 < m <= |dirichlet| && !dirichlet[m - 1]
    requires forall x :: x in prev ==> x.i / 2 < m - 1 && !dirichlet[x.i / 2]
    requires forall x :: x in cs ==> x.i / 2 == m - 1
    ensures forall x :: x in prev + cs ==> x.i / 2 < m && !dirichlet[x.i / 2]
  {
  }

  /** n empty rows (lines 534-535). */
  function EmptyRows<T>(n: nat): (rows: seq<seq<T>>)
    ensures |rows| == n && forall r :: 0 <= r < n ==> rows[r] == []
  {
    seq(n, _ => [])
  }

  /** The diagonal entries (r, 1) for r < n, as kDiag holds them. */
  function UnitDiagonal(n: nat): (d: seq<IV>)
    ensures |d| == n && forall r :: 0 <= r < n ==> d[r] == IV(r, 1.0)
  {
    seq(n, r requires 0 <= r < n => IV(r, 1.0))
  }

  /** The same entries as (r, r, 1) coefficients, as prepare_system appends them. */
  function DiagonalEntries(n: nat): (d: seq<IJV>)
    ensures |d| == n && forall r :: 0 <= r < n ==> d[r] == IJV(r, r, 1.0)
  {
    seq(n, r requires 0 <= r < n => IJV(r, r, 1.0))
  }

  /** The entries (r, r, 1) for r < m sum to 1 at (r, r) and to 0 elsewhere. */
  lemma {:induction false} SumAtUnitDiagonal(m: nat, i: nat, j: nat)
    ensures SumAt(DiagonalEntries(m), i, j) == if i == j && i < m then 1.0 else 0.0
  {
    if m > 0 {
      assert DiagonalEntries(m)[..m - 1] == DiagonalEntries(m - 1);
      SumAtUnitDiagonal(m - 1, i, j);
    }
  }

  /** prepare_system's coefficients for a unit diagonal: the couplings followed by the entries (r, r, 1). */
  lemma CoefficientsOfUnitDiagonal(n: nat, kCoefs: seq<IJV>)
    ensures Coefficients(UnitDiagonal(n), kCoefs) == kCoefs + DiagonalEntries(n)
  {
    var a, b := Coefficients(UnitDiagonal(n), kCoefs), kCoefs + DiagonalEntries(n);
    assert |a| == |b|;
    forall p | 0 <= p < |a|
      ensures a[p] == b[p]
    {
      if p < |kCoefs| {
        assert a[p] == a[..|kCoefs|][p];
      } else {
        assert a[|kCoefs| + (p - |kCoefs|)] == b[p];
      }
    }
  }

  /** Entries that all sit in rows of free edges sum to 0 in the rows of a Dirichlet edge. */
  lemma FreeRowsSum(coefs: seq<IJV>, dirichlet: seq<bool>, r: nat, c: nat)
    requires forall x :: x in coefs ==> x.i / 2 < |dirichlet| && !dirichlet[x.i / 2]
    requires r < 2 * |dirichlet| && dirichlet[r / 2]
    ensures SumAt(coefs, r, c) == 0.0
  {
    forall a | 0 <= a < |coefs|
      ensures !(coefs[a].i == r && coefs[a].j == c)
    {
      assert coefs[a] in coefs;
    }
    SumAtAbsent(coefs, r, c);
  }

  /** Row r of a Dirichlet edge: its only nonzero sum is 1, at (r, r). */
  lemma DirichletRowSums(g: Geometry, tb: EdgeTables, dirichlet: seq<bool>, r: nat, c: nat)
    requires Indexable(tb) && |dirichlet| == |tb.uIEdges|
    requires AllStiffnessOk(g, tb, dirichlet)
    requires r < 2 * |dirichlet| && dirichlet[r / 2]
    ensures SumAt(Coefficients(UnitDiagonal(2 * |dirichlet|), CoefsOf(g, tb, dirichlet, |dirichlet|)), r, c)
            == if c == r then 1.0 else 0.0
  {
    var n := 2 * |dirichlet|;
    var kCoefs := CoefsOf(g, tb, dirichlet, |dirichlet|);
    CoefficientsOfUnitDiagonal(n, kCoefs);
    CoefsRows(g, tb, dirichlet, |dirichlet|);
    SumAtAppend(kCoefs, DiagonalEntries(n), r, c);
    FreeRowsSum(kCoefs, dirichlet, r, c);
    SumAtUnitDiagonal(n, r, c);
  }

  /** The first two entries of a strictly increasing sequence differ. */
  lemma IncreasingDistinct(s: seq<nat>)
    requires StrictlyIncreasing(s) && |s| >= 2
    ensures s[0] != s[1]
  {
  }

  /** A row assembled from empty whose only nonzero sum is 1 at (r, r) is the single entry (r, 1). */
  lemma SingleEntryRow(columns: seq<nat>, values: seq<real>, coefs: seq<IJV>, r: nat)
    requires RowCompressed([], [], columns, values, coefs, r)
    requires forall c: nat :: SumAt(coefs, r, c) == if c == r then 1.0 else 0.0
    ensures columns == [r] && values == [1.0]
  {
    assert columns[0..] == columns && values[0..] == values;
    assert Abs(SumAt(coefs, r, r)) > EPS;
    assert r in columns;
    forall t | 0 <= t < |columns|
      ensures columns[t] == r
    {
      assert columns[t] in columns;
      assert Abs(SumAt(coefs, r, columns[t])) > EPS;
    }
    if |columns| >= 2 {
      IncreasingDistinct(columns);
      assert false;
    }
    assert values[0] == SumAt(coefs, r, columns[0]);
  }

  /**
   * Lines 506-511 through prepare_system: the assembled rows 2e and 2e + 1
   * of a Dirichlet edge e, starting from empty rows, hold the single
   * diagonal entry 1.
   */
  lemma DirichletRowsAssembled(g: Geometry, tb: EdgeTables, dirichlet: seq<bool>,
                               columns: seq<seq<nat>>, values: seq<seq<real>>, r: nat)
    requires Indexable(tb) && |dirichlet| == |tb.uIEdges|
    requires AllStiffnessOk(g, tb, dirichlet)
    requires var n := 2 * |dirichlet|;
             Compressed(EmptyRows(n), EmptyRows(n), columns, values,
                        Coefficients(UnitDiagonal(n), CoefsOf(g, tb, dirichlet, |dirichlet|)))
    requires r < 2 * |dirichlet| && dirichlet[r / 2]
    ensures columns[r] == [r] && values[r] == [1.0]
  {
    var n := 2 * |dirichlet|;
    var coefs := Coefficients(UnitDiagonal(n), CoefsOf(g, tb, dirichlet, |dirichlet|));
    forall c: nat
      ensures SumAt(coefs, r, c) == if c == r then 1.0 else 0.0
    {
      DirichletRowSums(g, tb, dirichlet, r, c);
    }
    SingleEntryRow(columns[r], values[r], coefs, r);
  }
}
