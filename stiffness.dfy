/**
 * The index and failure structure of the per-edge stiffness contribution
 * (stiffness_coefficient).
 *
 * Every unique edge e owns two unknowns, 2e and 2e + 1 (cos 4θ and sin 4θ
 * of the cross angle θ on that edge). A regular edge couples its two
 * unknowns to those of its four neighbour edges: the two other edges of
 * each of its two triangles. The geometric quantities the coupling uses
 * (lengths, the local frame, the rotation angles, the Crouzeix–Raviart
 * weights, cos and sin) are uninterpreted real functions here.
 */
module Stiffness {
  import opened QmtTypes
  import opened Adjacency

  /** A diagonal coefficient: row i, value val. */
  datatype IV = IV(i: nat, val: real)

  /** A coefficient at row i, column j. */
  datatype IJV = IJV(i: nat, j: nat, val: real)

  /**
   * The mesh geometry, as uninterpreted functions.
   * - edgeLength(a, b): length of points[b] - points[a];
   * - frameLength(e, s): length of e_y = N × e_x for unique edge e and its
   *   s-th triangle (normal oriented like that of the first triangle);
   * - alpha(e, s, k): the angle in [0, 2π) from e to the k-th other edge
   *   of the s-th triangle, measured in that triangle's frame;
   * - crWeight(e, s, k, c): -2 / tan(agl) for that neighbour edge, where
   *   agl is the edge-edge angle taken by endpoint case c (lines 292-299);
   * - cos, sin: the cosine and sine;
   * - area(t): the area of triangle t.
   */
  datatype Geometry = Geometry(
    edgeLength: (Id, Id) -> real,
    frameLength: (nat, nat) -> real,
    alpha: (nat, nat, nat) -> real,
    crWeight: (nat, nat, nat, nat) -> real,
    cos: real -> real,
    sin: real -> real,
    area: nat -> real)

  /** e has exactly two occurrences, so stiffness_coefficient gets past its first check. */
  ghost predicate Regular(tb: EdgeTables, e: nat)
    requires Indexable(tb)
  {
    e < |tb.toOld| && |tb.toOld[e]| == 2
  }

  /** Face position of the k-th other local edge of the s-th triangle of e: 3t + (le + 1 + k) % 3. */
  function NeighborPos(tb: EdgeTables, e: nat, s: nat, k: nat): (r: nat)
    requires Indexable(tb) && Regular(tb, e) && s < 2 && k < 2
    ensures r < |tb.old2IEdge|
  {
    var oe := tb.toOld[e][s];
    var t := oe / 3;
    var le := oe % 3;
    3 * t + (le + 1 + k) % 3
  }

  /** The unique edge of that face position (bvars[2s + k]). */
  function NeighborEdge(tb: EdgeTables, e: nat, s: nat, k: nat): (b: nat)
    requires Indexable(tb) && Regular(tb, e) && s < 2 && k < 2
    ensures b < |tb.uIEdges|
  {
    tb.old2IEdge[NeighborPos(tb, e, s, k)]
  }

  /** The four neighbour positions are the two other local edges of each of the two triangles of e. */
  lemma NeighborIsOtherLocalEdge(tb: EdgeTables, e: nat, s: nat, k: nat)
    requires Indexable(tb) && Regular(tb, e) && s < 2 && k < 2
    ensures NeighborPos(tb, e, s, k) / 3 == tb.toOld[e][s] / 3
    ensures NeighborPos(tb, e, s, k) % 3 != tb.toOld[e][s] % 3
    ensures NeighborPos(tb, e, 0, 0) != NeighborPos(tb, e, 0, 1)
    ensures NeighborPos(tb, e, 1, 0) != NeighborPos(tb, e, 1, 1)
  {
  }

  /**
   * Lines 292-303: the case by which the neighbour edge a shares an
   * endpoint with e = (v1, v2): 0 if a[0] == v1, 1 if a[1] == v1, 2 if
   * a[0] == v2, 3 if a[1] == v2 (first match), 4 if none.
   */
  function EndpointCase(a: Id2, v1: Id, v2: Id): (c: nat)
    ensures c <= 4
    ensures c < 4 <==> (a.v0 == v1 || a.v1 == v1 || a.v0 == v2 || a.v1 == v2)
  {
    if a.v0 == v1 then 0
    else if a.v1 == v1 then 1
    else if a.v0 == v2 then 2
    else if a.v1 == v2 then 3
    else 4
  }

  /** The checks made for neighbour k of triangle s: it is long enough and shares an endpoint with e. */
  ghost predicate NeighborOk(g: Geometry, tb: EdgeTables, e: nat, s: nat, k: nat)
    requires Indexable(tb) && Regular(tb, e) && s < 2 && k < 2
  {
    var a := tb.uIEdges[NeighborEdge(tb, e, s, k)];
    g.edgeLength(a.v0, a.v1) >= EPS && EndpointCase(a, tb.uIEdges[e].v0, tb.uIEdges[e].v1) < 4
  }

  /**
   * stiffness_coefficient succeeds exactly when e has two occurrences, e
   * is not shorter than EPS, neither local frame is degenerate, and every
   * neighbour edge passes NeighborOk.
   */
  ghost predicate StiffnessOk(g: Geometry, tb: EdgeTables, e: nat)
    requires Indexable(tb) && e < |tb.toOld|
  {
    && Regular(tb, e)
    && g.edgeLength(tb.uIEdges[e].v0, tb.uIEdges[e].v1) >= EPS
    && NeighborsOk(g, tb, e)
  }

  /** The checks of the loops over the two triangles: frames non-degenerate, every neighbour passing NeighborOk. */
  ghost predicate NeighborsOk(g: Geometry, tb: EdgeTables, e: nat)
    requires Indexable(tb) && Regular(tb, e)
  {
    && (forall s :: 0 <= s < 2 ==> g.frameLength(e, s) >= EPS)
    && (forall s, k :: 0 <= s < 2 && 0 <= k < 2 ==> NeighborOk(g, tb, e, s, k))
  }

  /** The raw Crouzeix–Raviart weight of neighbour k of triangle s (the endpoint case decides which angle). */
  function RawWeight(g: Geometry, tb: EdgeTables, e: nat, s: nat, k: nat): real
    requires Indexable(tb) && Regular(tb, e) && s < 2 && k < 2
  {
    var a := tb.uIEdges[NeighborEdge(tb, e, s, k)];
    g.crWeight(e, s, k, EndpointCase(a, tb.uIEdges[e].v0, tb.uIEdges[e].v1))
  }

  /** bvars: the four neighbour edges, neighbour k of triangle s at index 2s + k. */
  function NeighborEdges(tb: EdgeTables, e: nat): (r: seq<nat>)
    requires Indexable(tb) && Regular(tb, e)
    ensures |r| == 4
  {
    seq(4, j requires 0 <= j < 4 => NeighborEdge(tb, e, j / 2, j % 2))
  }

  /** The four rotation angles, in the order of bvars. */
  function Alphas(g: Geometry, e: nat): (r: seq<real>)
    ensures |r| == 4
  {
    seq(4, j requires 0 <= j < 4 => g.alpha(e, j / 2, j % 2))
  }

  /** The four raw weights, in the order of bvars. */
  function RawWeights(g: Geometry, tb: EdgeTables, e: nat): (r: seq<real>)
    requires Indexable(tb) && Regular(tb, e)
    ensures |r| == 4
  {
    seq(4, j requires 0 <= j < 4 => RawWeight(g, tb, e, j / 2, j % 2))
  }

  /** Line 309: isum, minus the sum of the four raw weights. */
  function ISum(g: Geometry, tb: EdgeTables, e: nat): real
    requires Indexable(tb) && Regular(tb, e)
  {
    var w := RawWeights(g, tb, e);
    -1.0 * (w[0] + w[1] + w[2] + w[3])
  }

  /** Line 310: the four weights normalised by isum. */
  function Weights(g: Geometry, tb: EdgeTables, e: nat): (r: seq<real>)
    requires Indexable(tb) && Regular(tb, e)
    ensures |r| == 4
  {
    seq(4, j requires 0 <= j < 4 => Quot(RawWeights(g, tb, e)[j], ISum(g, tb, e)))
  }

  /**
   * When isum is not zero the normalised weights sum to -1, so that the
   * self term 1 and the four weights sum to 0.
   */
  lemma WeightsSumToMinusOne(g: Geometry, tb: EdgeTables, e: nat)
    requires Indexable(tb) && Regular(tb, e)
    requires ISum(g, tb, e) != 0.0
    ensures Weights(g, tb, e)[0] + Weights(g, tb, e)[1] + Weights(g, tb, e)[2] + Weights(g, tb, e)[3] == -1.0
  {
    var d := ISum(g, tb, e);
    var w := RawWeights(g, tb, e);
    assert w[0] / d + w[1] / d + w[2] / d + w[3] / d == (w[0] + w[1] + w[2] + w[3]) / d;
    assert w[0] + w[1] + w[2] + w[3] == -d;
  }

  /** Lines 321-324: the 2×2 rotation block coupling e to neighbour edge b with weight w and angle a. */
  function Block(g: Geometry, e: nat, b: nat, w: real, a: real): seq<IJV>
  {
    seq(4, k requires 0 <= k < 4 => BlockEntry(g, e, b, w, a, k))
  }

  /** Entry k of that block: row 2e + k / 2, column 2b + k % 2, value w·[cos, -sin; sin, cos][k]. */
  function BlockEntry(g: Geometry, e: nat, b: nat, w: real, a: real, k: nat): IJV
  {
    if k == 0 then IJV(2 * e, 2 * b, w * g.cos(4.0 * a))
    else if k == 1 then IJV(2 * e, 2 * b + 1, w * -1.0 * g.sin(4.0 * a))
    else if k == 2 then IJV(2 * e + 1, 2 * b, w * g.sin(4.0 * a))
    else IJV(2 * e + 1, 2 * b + 1, w * g.cos(4.0 * a))
  }

  /** The blocks of the first m neighbours, in order. */
  function Blocks(g: Geometry, e: nat, bs: seq<nat>, ws: seq<real>, als: seq<real>, m: nat): seq<IJV>
    requires m <= |bs| && m <= |ws| && m <= |als|
  {
    if m == 0 then [] else Blocks(g, e, bs, ws, als, m - 1) + Block(g, e, bs[m - 1], ws[m - 1], als[m - 1])
  }

  /** The coupling coefficients of e: the blocks of its four neighbour edges, in the order of bvars. */
  function Couplings(g: Geometry, tb: EdgeTables, e: nat): seq<IJV>
    requires Indexable(tb) && Regular(tb, e)
  {
    var bs, ws, als := NeighborEdges(tb, e), Weights(g, tb, e), Alphas(g, e);
    Block(g, e, bs[0], ws[0], als[0]) + Block(g, e, bs[1], ws[1], als[1])
    + Block(g, e, bs[2], ws[2], als[2]) + Block(g, e, bs[3], ws[3], als[3])
  }

  /** The couplings are what the loop of lines 316-325 pushes for the four neighbours. */
  lemma CouplingsAreBlocks(g: Geometry, tb: EdgeTables, e: nat)
    requires Indexable(tb) && Regular(tb, e)
    ensures Couplings(g, tb, e) == Blocks(g, e, NeighborEdges(tb, e), Weights(g, tb, e), Alphas(g, e), 4)
  {
    var bs, ws, als := NeighborEdges(tb, e), Weights(g, tb, e), Alphas(g, e);
    assert Blocks(g, e, bs, ws, als, 1) == Block(g, e, bs[0], ws[0], als[0]);
    assert Blocks(g, e, bs, ws, als, 2) == Blocks(g, e, bs, ws, als, 1) + Block(g, e, bs[1], ws[1], als[1]);
    assert Blocks(g, e, bs, ws, als, 3) == Blocks(g, e, bs, ws, als, 2) + Block(g, e, bs[2], ws[2], als[2]);
  }

  /** Each block has rows 2e, 2e + 1 and columns 2b, 2b + 1. */
  lemma BlockShape(g: Geometry, e: nat, b: nat, w: real, a: real)
    ensures |Block(g, e, b, w, a)| == 4
    ensures forall x :: x in Block(g, e, b, w, a) ==> (x.i == 2 * e || x.i == 2 * e + 1) && x.j / 2 == b
  {
  }

  /**
   * e has exactly 16 coupling coefficients; their rows are the unknowns
   * 2e, 2e + 1 of e and their columns the unknowns 2b, 2b + 1 of one of
   * its four neighbour edges b.
   */
  lemma CouplingsShape(g: Geometry, tb: EdgeTables, e: nat)
    requires Indexable(tb) && Regular(tb, e)
    ensures |Couplings(g, tb, e)| == 16
    ensures forall x :: x in Couplings(g, tb, e) ==> x.i == 2 * e || x.i == 2 * e + 1
    ensures forall x :: x in Couplings(g, tb, e) ==>
              || x.j / 2 == NeighborEdge(tb, e, 0, 0) || x.j / 2 == NeighborEdge(tb, e, 0, 1)
              || x.j / 2 == NeighborEdge(tb, e, 1, 0) || x.j / 2 == NeighborEdge(tb, e, 1, 1)
  {
    var bs, ws, als := NeighborEdges(tb, e), Weights(g, tb, e), Alphas(g, e);
    BlockShape(g, e, bs[0], ws[0], als[0]);
    BlockShape(g, e, bs[1], ws[1], als[1]);
    BlockShape(g, e, bs[2], ws[2], als[2]);
    BlockShape(g, e, bs[3], ws[3], als[3]);
  }

  /**
   * Lines 272-305 for neighbour k of triangle s: its unique edge and, when
   * it passes the checks, its angle and raw weight.
   */
  method VisitNeighbor(g: Geometry, tb: EdgeTables, e: nat, s: nat, k: nat) returns (ok: bool, ae: nat, alpha: real, w: real)
    requires Indexable(tb) && Regular(tb, e) && s < 2 && k < 2
    ensures ae == NeighborEdge(tb, e, s, k)
    ensures ok <==> NeighborOk(g, tb, e, s, k)
    ensures ok ==> alpha == g.alpha(e, s, k) && w == RawWeight(g, tb, e, s, k)
  {
    var v1 := tb.uIEdges[e].v0;
    var v2 := tb.uIEdges[e].v1;
    var oe := tb.toOld[e][s];
    var t := oe / 3;
    var le := oe % 3;
    var aoe := 3 * t + (le + 1 + k) % 3;
    ae := tb.old2IEdge[aoe];
    var aedge := tb.uIEdges[ae];
    alpha, w := 0.0, 0.0;
    var len := g.edgeLength(aedge.v0, aedge.v1);
    if len < EPS {
      return false, ae, alpha, w;
    }
    alpha := g.alpha(e, s, k);
    var c;
    if aedge.v0 == v1 {
      c := 0;
    } else if aedge.v1 == v1 {
      c := 1;
    } else if aedge.v0 == v2 {
      c := 2;
    } else if aedge.v1 == v2 {
      c := 3;
    } else {
      return false, ae, alpha, w;
    }
    w := g.crWeight(e, s, k, c);
    ok := true;
  }

  /** The first m entries of bvars, alpha and crWeight hold the values of the first m neighbours. */
  ghost predicate Filled(g: Geometry, tb: EdgeTables, e: nat, bs: seq<nat>, als: seq<real>, ws: seq<real>, m: nat)
    requires Indexable(tb) && Regular(tb, e)
    requires |bs| == 4 && |als| == 4 && |ws| == 4 && m <= 4
  {
    && bs[..m] == NeighborEdges(tb, e)[..m]
    && als[..m] == Alphas(g, e)[..m]
    && ws[..m] == RawWeights(g, tb, e)[..m]
  }

  /** Storing the values of neighbour m = 2s + k extends a filled prefix by one. */
  lemma FilledStep(g: Geometry, tb: EdgeTables, e: nat, bs: seq<nat>, als: seq<real>, ws: seq<real>, s: nat, k: nat)
    requires Indexable(tb) && Regular(tb, e) && s < 2 && k < 2
    requires |bs| == 4 && |als| == 4 && |ws| == 4
    requires Filled(g, tb, e, bs, als, ws, 2 * s + k)
    ensures Filled(g, tb, e, bs[2 * s + k := NeighborEdge(tb, e, s, k)], als[2 * s + k := g.alpha(e, s, k)],
                   ws[2 * s + k := RawWeight(g, tb, e, s, k)], 2 * s + k + 1)
  {
    var j := 2 * s + k;
    assert j / 2 == s && j % 2 == k;
    var bs', als', ws' := bs[j := NeighborEdge(tb, e, s, k)], als[j := g.alpha(e, s, k)], ws[j := RawWeight(g, tb, e, s, k)];
    assert bs'[..j + 1] == bs[..j] + [bs'[j]];
    assert als'[..j + 1] == als[..j] + [als'[j]];
    assert ws'[..j + 1] == ws[..j] + [ws'[j]];
    assert NeighborEdges(tb, e)[..j + 1] == NeighborEdges(tb, e)[..j] + [NeighborEdges(tb, e)[j]];
    assert Alphas(g, e)[..j + 1] == Alphas(g, e)[..j] + [Alphas(g, e)[j]];
    assert RawWeights(g, tb, e)[..j + 1] == RawWeights(g, tb, e)[..j] + [RawWeights(g, tb, e)[j]];
  }

  /** Lines 275-306: the loop over the two other edges of the s-th triangle of e. */
  method CollectTriangle(g: Geometry, tb: EdgeTables, e: nat, s: nat, bvars: array<nat>, alpha: array<real>, crWeight: array<real>)
    returns (ok: bool)
    requires Indexable(tb) && Regular(tb, e) && s < 2
    requires bvars.Length == 4 && alpha.Length == 4 && crWeight.Length == 4
    requires alpha != crWeight
    requires Filled(g, tb, e, bvars[..], alpha[..], crWeight[..], 2 * s)
    modifies bvars, alpha, crWeight
    ensures ok <==> NeighborOk(g, tb, e, s, 0) && NeighborOk(g, tb, e, s, 1)
    ensures ok ==> Filled(g, tb, e, bvars[..], alpha[..], crWeight[..], 2 * s + 2)
  {
    for k := 0 to 2
      invariant k > 0 ==> NeighborOk(g, tb, e, s, 0)
      invariant k > 1 ==> NeighborOk(g, tb, e, s, 1)
      invariant Filled(g, tb, e, bvars[..], alpha[..], crWeight[..], 2 * s + k)
    {
      var j := 2 * s + k;
      var okN, ae, angle, w := VisitNeighbor(g, tb, e, s, k);
      ghost var bs, als, ws := bvars[..], alpha[..], crWeight[..];
      bvars[j] := ae;
      if !okN {
        return false;
      }
      alpha[j] := angle;
      crWeight[j] := w;
      FilledStep(g, tb, e, bs, als, ws, s, k);
      assert bvars[..] == bs[j := ae] && alpha[..] == als[j := angle] && crWeight[..] == ws[j := w];
    }
    ok := true;
  }

  /**
   * Lines 268-307: the loop over the two triangles of e, filling bvars,
   * alpha and the raw weights.
   */
  method CollectNeighbors(g: Geometry, tb: EdgeTables, e: nat, bvars: array<nat>, alpha: array<real>, crWeight: array<real>)
    returns (ok: bool)
    requires Indexable(tb) && Regular(tb, e)
    requires bvars.Length == 4 && alpha.Length == 4 && crWeight.Length == 4
    requires alpha != crWeight
    modifies bvars, alpha, crWeight
    ensures ok <==> NeighborsOk(g, tb, e)
    ensures ok ==> bvars[..] == NeighborEdges(tb, e) && alpha[..] == Alphas(g, e) && crWeight[..] == RawWeights(g, tb, e)
  {
    for s := 0 to 2
      invariant forall s' :: 0 <= s' < s ==> g.frameLength(e, s') >= EPS
      invariant forall s', k :: 0 <= s' < s && 0 <= k < 2 ==> NeighborOk(g, tb, e, s', k)
      invariant Filled(g, tb, e, bvars[..], alpha[..], crWeight[..], 2 * s)
    {
      if g.frameLength(e, s) < EPS {
        return false;
      }
      ok := CollectTriangle(g, tb, e, s, bvars, alpha, crWeight);
      if !ok {
        return false;
      }
    }
    assert bvars[..] == bvars[..4] && alpha[..] == alpha[..4] && crWeight[..] == crWeight[..4];
    ok := true;
  }

  /** Line 310: every weight divided by isum. */
  method Normalize(crWeight: array<real>, isum: real)
    modifies crWeight
    ensures forall j :: 0 <= j < crWeight.Length ==> crWeight[j] == Quot(old(crWeight[j]), isum)
  {
    for k := 0 to crWeight.Length
      invariant forall j :: 0 <= j < k ==> crWeight[j] == Quot(old(crWeight[j]), isum)
      invariant forall j :: k <= j < crWeight.Length ==> crWeight[j] == old(crWeight[j])
    {
      crWeight[k] := Quot(crWeight[k], isum);
    }
  }

  /** Lines 316-325: the four blocks, pushed in order. */
  method EmitCouplings(g: Geometry, e: nat, bs: seq<nat>, ws: seq<real>, als: seq<real>) returns (ijv: seq<IJV>)
    requires |bs| == 4 && |ws| == 4 && |als| == 4
    ensures |ijv| == 16
    ensures ijv == Blocks(g, e, bs, ws, als, 4)
  {
    var x_i := 2 * e;
    var y_i := 2 * e + 1;
    ijv := [];
    for j := 0 to 4
      invariant |ijv| == 4 * j
      invariant ijv == Blocks(g, e, bs, ws, als, j)
    {
      var x_j := 2 * bs[j];
      var y_j := 2 * bs[j] + 1;
      assert Blocks(g, e, bs, ws, als, j + 1) == Blocks(g, e, bs, ws, als, j) + Block(g, e, bs[j], ws[j], als[j]);
      ijv := ijv + [ IJV(x_i, x_j, ws[j] * g.cos(4.0 * als[j])),
                     IJV(x_i, y_j, ws[j] * -1.0 * g.sin(4.0 * als[j])),
                     IJV(y_i, x_j, ws[j] * g.sin(4.0 * als[j])),
                     IJV(y_i, y_j, ws[j] * g.cos(4.0 * als[j])) ];
      ghost var bl := Block(g, e, bs[j], ws[j], als[j]);
      assert |bl| == 4;
      assert ijv[4 * j] == bl[0];
      assert ijv[4 * j + 1] == bl[1];
      assert ijv[4 * j + 2] == bl[2];
      assert ijv[4 * j + 3] == bl[3];
    }
  }

  /**
   * stiffness_coefficient. It fails exactly when StiffnessOk does not
   * hold, and then leaves both output lists as they were given; on success
   * it clears them, then iv holds the two diagonal entries (2e, 1) and
   * (2e + 1, 1) and ijv the 16 couplings.
   */
  method StiffnessCoefficient(g: Geometry, tb: EdgeTables, e: nat, iv0: seq<IV>, ijv0: seq<IJV>)
    returns (ok: bool, iv: seq<IV>, ijv: seq<IJV>)
    requires Indexable(tb) && e < |tb.toOld|
    ensures ok <==> StiffnessOk(g, tb, e)
    ensures !ok ==> iv == iv0 && ijv == ijv0
    ensures ok ==> iv == [IV(2 * e, 1.0), IV(2 * e + 1, 1.0)]
    ensures ok ==> ijv == Couplings(g, tb, e)
  {
    iv, ijv := iv0, ijv0;
    if |tb.toOld[e]| != 2 {
      return false, iv, ijv;
    }
    var v1 := tb.uIEdges[e].v0;
    var v2 := tb.uIEdges[e].v1;
    var lenr := g.edgeLength(v1, v2);
    if lenr < EPS {
      return false, iv, ijv;
    }
    var bvars := new nat[4](_ => NO_ID);
    var alpha := new real[4](_ => 0.0);
    var crWeight := new real[4](_ => -1.0 / 4.0);
    ok := CollectNeighbors(g, tb, e, bvars, alpha, crWeight);
    if !ok {
      return false, iv, ijv;
    }
    var isum := -1.0 * (crWeight[0] + crWeight[1] + crWeight[2] + crWeight[3]);
    assert isum == ISum(g, tb, e);
    Normalize(crWeight, isum);
    assert crWeight[..] == Weights(g, tb, e);
    iv := [IV(2 * e, 1.0), IV(2 * e + 1, 1.0)];
    ijv := EmitCouplings(g, e, bvars[..], crWeight[..], alpha[..]);
    CouplingsAreBlocks(g, tb, e);
  }
}
