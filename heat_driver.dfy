/**
 * The heat-diffusion half of compute_cross_field_with_heat (lines
 * 533-601): the implicit matrix rewritten on every iteration, the
 * renormalisation of the crosses, the ten-iteration loop, and the
 * driver that chains adjacency, Dirichlet marking, assembly,
 * prepare_system and the loop.
 *
 * The linear solver and the square root are parameters: the model says
 * what it needs of them (KeepsSize, ExactSolver, IsSqrt) and
 * nothing else.
 */
module HeatDriver {
  import opened QmtTypes
  import opened Adjacency
  import opened Stiffness
  import opened Assembly
  import opened HeatSystem

  /** Line 557: the iteration count is set to 10, whatever the caller passed. */
  const NB_ITER: nat := 10

  /**
   * Line 559. iter / (nbIter - 1) is an integer division, so the step is
   * dtInitial on every iteration but the last and dtFinal on the last one.
   */
  function TimeStep(dtInitial: real, dtFinal: real, iter: nat): (dt: real)
    requires iter < NB_ITER
    ensures iter < NB_ITER - 1 ==> dt == dtInitial
    ensures iter == NB_ITER - 1 ==> dt == dtFinal
  {
    var k := iter / (NB_ITER - 1);
    assert k == if iter == NB_ITER - 1 then 1 else 0;
    dtInitial + (dtFinal - dtInitial) * (k as real)
  }

  /** The assembled system: the compressed rows of K, the lumped mass and the Dirichlet flags. */
  datatype System = System(columns: seq<seq<nat>>, values: seq<seq<real>>, mass: seq<real>, dirichlet: seq<bool>)

  /** Two unknowns per edge, one mass entry per unknown, and rows whose two lists have the same length. */
  predicate ValidSystem(sys: System) {
    && |sys.columns| == |sys.values| == |sys.mass| == 2 * |sys.dirichlet|
    && forall i :: 0 <= i < |sys.columns| ==> |sys.columns[i]| == |sys.values[i]|
  }

  /**
   * Lines 566-570: row i of I + dt M⁻¹ K on the columns of row i of K,
   * where q is dt / Mass[i].
   */
  function ImplicitRow(cols: seq<nat>, vals: seq<real>, i: nat, q: real): (row: seq<real>)
    requires |cols| == |vals|
  {
    seq(|vals|, j requires 0 <= j < |vals| => if cols[j] == i then 1.0 + q * vals[j] else q * vals[j])
  }

  /** Lines 563-575: the values of the matrix solved at one iteration; a Dirichlet row becomes {1}. */
  function ImplicitValues(sys: System, dt: real): (aval: seq<seq<real>>)
    requires ValidSystem(sys)
  {
    seq(|sys.values|, i requires 0 <= i < |sys.values| =>
      if sys.dirichlet[i / 2] then [1.0] else ImplicitRow(sys.columns[i], sys.values[i], i, Quot(dt, sys.mass[i])))
  }

  /** Lines 566-572, one row: each entry becomes dt / Mass[i] times the stiffness value, plus 1 on the diagonal. */
  method RewriteRow(cols: seq<nat>, vals: seq<real>, i: nat, dt: real, m: real) returns (row: seq<real>)
    requires |cols| == |vals|
    ensures row == ImplicitRow(cols, vals, i, Quot(dt, m))
  {
    row := vals;
    for j := 0 to |row|
      invariant |row| == |vals|
      invariant forall t :: 0 <= t < |row| ==> row[t] == if t < j then ImplicitRow(cols, vals, i, Quot(dt, m))[t] else vals[t]
    {
      if cols[j] == i {
        row := row[j := 1.0 + Quot(dt, m) * vals[j]];
      } else {
        row := row[j := Quot(dt, m) * vals[j]];
      }
    }
    assert row == ImplicitRow(cols, vals, i, Quot(dt, m));
  }

  /** Lines 562-576: Aval starts as a copy of K_values and is rewritten row by row. */
  method BuildImplicit(sys: System, dt: real) returns (aval: seq<seq<real>>)
    requires ValidSystem(sys)
    ensures aval == ImplicitValues(sys, dt)
  {
    aval := sys.values;
    for i := 0 to |aval|
      invariant |aval| == |sys.values|
      invariant forall r :: 0 <= r < |aval| ==> aval[r] == if r < i then ImplicitValues(sys, dt)[r] else sys.values[r]
    {
      if !sys.dirichlet[i / 2] {
        var row := RewriteRow(sys.columns[i], aval[i], i, dt, sys.mass[i]);
        aval := aval[i := row];
      } else {
        aval := aval[i := [1.0]];
      }
    }
    assert aval == ImplicitValues(sys, dt);
  }

  /** The sum of the first k elements of p. */
  function Sum(p: seq<real>, k: nat): real
    requires k <= |p|
  {
    if k == 0 then 0.0 else Sum(p, k - 1) + p[k - 1]
  }

  /** The products of the entries of a compressed row with the x values of their columns. */
  function Products(cols: seq<nat>, vals: seq<real>, x: seq<real>): (p: seq<real>)
    requires |cols| == |vals|
    requires forall t :: 0 <= t < |cols| ==> cols[t] < |x|
  {
    seq(|cols|, t requires 0 <= t < |cols| => vals[t] * x[cols[t]])
  }

  /** The product of a compressed row with x. */
  function RowDot(cols: seq<nat>, vals: seq<real>, x: seq<real>): real
    requires |cols| == |vals|
    requires forall t :: 0 <= t < |cols| ==> cols[t] < |x|
  {
    Sum(Products(cols, vals, x), |cols|)
  }

  /** x[i] where the row holds column i, 0 elsewhere: the identity part of an implicit row times x. */
  function Indicator(cols: seq<nat>, i: nat, x: seq<real>): (d: seq<real>)
    requires i < |x|
  {
    seq(|cols|, t requires 0 <= t < |cols| => if cols[t] == i then x[i] else 0.0)
  }

  /** In a strictly increasing row, column i occurs at most once. */
  lemma {:induction false} IndicatorOnce(cols: seq<nat>, i: nat, x: seq<real>, k: nat)
    requires k <= |cols| && i < |x| && StrictlyIncreasing(cols)
    ensures Sum(Indicator(cols, i, x), k) == if i in cols[..k] then x[i] else 0.0
  {
    if k > 0 {
      IndicatorOnce(cols, i, x, k - 1);
      assert cols[..k] == cols[..k - 1] + [cols[k - 1]];
      if cols[k - 1] == i {
        forall t | 0 <= t < k - 1
          ensures cols[t] != i
        {
          assert cols[t] < cols[k - 1];
        }
      }
    }
  }

  /** q s = q a + q b when s = a + b. */
  lemma Distributes(q: real, s: real, a: real, b: real)
    requires s == a + b
    ensures q * s == q * a + q * b
  {
  }

  /** Summing p = d + q v element by element gives Sum(d) + q Sum(v). */
  lemma {:induction false} SumCombination(p: seq<real>, d: seq<real>, v: seq<real>, q: real, k: nat)
    requires k <= |p| == |d| == |v|
    requires forall t :: 0 <= t < k ==> p[t] == d[t] + q * v[t]
    ensures Sum(p, k) == Sum(d, k) + q * Sum(v, k)
  {
    if k > 0 {
      SumCombination(p, d, v, q, k - 1);
      Distributes(q, Sum(v, k), Sum(v, k - 1), v[k - 1]);
    }
  }

  /** The arithmetic of one entry of an implicit row times x. */
  lemma EntryProduct(diagonal: bool, q: real, v: real, xc: real)
    ensures (if diagonal then 1.0 + q * v else q * v) * xc == (if diagonal then xc else 0.0) + q * (v * xc)
  {
  }

  /** Entry by entry, the products of an implicit row are the indicator plus q times the products of the stiffness row. */
  lemma ImplicitProducts(cols: seq<nat>, vals: seq<real>, i: nat, q: real, x: seq<real>, t: nat)
    requires |cols| == |vals| && i < |x| && t < |cols|
    requires forall s :: 0 <= s < |cols| ==> cols[s] < |x|
    ensures Products(cols, ImplicitRow(cols, vals, i, q), x)[t] == Indicator(cols, i, x)[t] + q * Products(cols, vals, x)[t]
  {
    EntryProduct(cols[t] == i, q, vals[t], x[cols[t]]);
  }

  /**
   * A row of the implicit matrix times x is x[i] (when the row holds its
   * diagonal) plus q = dt / Mass[i] times the stiffness row times x: the
   * system solved is one implicit Euler step of the heat equation
   * M x' = -K x.
   */
  lemma ImplicitRowProduct(cols: seq<nat>, vals: seq<real>, i: nat, q: real, x: seq<real>)
    requires |cols| == |vals| && i < |x| && StrictlyIncreasing(cols)
    requires forall t :: 0 <= t < |cols| ==> cols[t] < |x|
    ensures RowDot(cols, ImplicitRow(cols, vals, i, q), x) == (if i in cols then x[i] else 0.0) + q * RowDot(cols, vals, x)
  {
    var p, d, v := Products(cols, ImplicitRow(cols, vals, i, q), x), Indicator(cols, i, x), Products(cols, vals, x);
    forall t | 0 <= t < |cols|
      ensures p[t] == d[t] + q * v[t]
    {
      ImplicitProducts(cols, vals, i, q, x, t);
    }
    SumCombination(p, d, v, q, |cols|);
    IndicatorOnce(cols, i, x, |cols|);
    assert cols[..|cols|] == cols;
  }

  /** sqrt stands for std::sqrt: on non-negative reals it returns the non-negative square root. */
  ghost predicate IsSqrt(sqrt: real -> real) {
    forall y: real :: y >= 0.0 ==> sqrt(y) >= 0.0 && sqrt(y) * sqrt(y) == y
  }

  /** Line 590: the norm of a pair. */
  function Norm(a: real, b: real, sqrt: real -> real): real {
    sqrt(a * a + b * b)
  }

  /** The norm of the two entries of edge e. */
  function EdgeNorm(v: seq<real>, e: nat, sqrt: real -> real): real
    requires 2 * e + 1 < |v|
  {
    Norm(v[2 * e], v[2 * e + 1], sqrt)
  }

  /** Line 591: edge e is divided by its norm when it is free and its norm exceeds EPS. */
  predicate Rescaled(v: seq<real>, dirichlet: seq<bool>, sqrt: real -> real, e: nat)
    requires |v| == 2 * |dirichlet| && e < |dirichlet|
  {
    !dirichlet[e] && EdgeNorm(v, e, sqrt) > EPS
  }

  /**
   * Lines 589-595, as a function of the solved vector: every free edge
   * whose norm exceeds EPS is scaled to norm one; every other edge,
   * Dirichlet ones in particular, keeps its two entries.
   */
  function Renormalized(v: seq<real>, dirichlet: seq<bool>, sqrt: real -> real): (w: seq<real>)
    requires |v| == 2 * |dirichlet|
    ensures |w| == |v|
  {
    seq(|v|, r requires 0 <= r < |v| =>
      if Rescaled(v, dirichlet, sqrt, r / 2) then v[r] / EdgeNorm(v, r / 2, sqrt) else v[r])
  }

  /**
   * The two entries of edge e after renormalisation: divided by the edge's
   * norm when it is rescaled, unchanged otherwise (a Dirichlet edge in
   * particular).
   */
  lemma RenormalizedAt(v: seq<real>, dirichlet: seq<bool>, sqrt: real -> real, e: nat)
    requires |v| == 2 * |dirichlet| && e < |dirichlet|
    ensures var w := Renormalized(v, dirichlet, sqrt);
            && (Rescaled(v, dirichlet, sqrt, e) ==>
                  w[2 * e] == v[2 * e] / EdgeNorm(v, e, sqrt) && w[2 * e + 1] == v[2 * e + 1] / EdgeNorm(v, e, sqrt))
            && (!Rescaled(v, dirichlet, sqrt, e) ==> w[2 * e] == v[2 * e] && w[2 * e + 1] == v[2 * e + 1])
  {
    assert (2 * e) / 2 == e && (2 * e + 1) / 2 == e;
  }

  /** Lines 588-595: the crosses are normalised in place, edge by edge. */
  method Renormalize(x: array<real>, dirichlet: seq<bool>, sqrt: real -> real)
    requires x.Length == 2 * |dirichlet|
    modifies x
    ensures x[..] == Renormalized(old(x[..]), dirichlet, sqrt)
  {
    ghost var v := x[..];
    ghost var w := Renormalized(v, dirichlet, sqrt);
    var norms := new real[|dirichlet|](_ => 0.0);
    for e := 0 to |dirichlet|
      invariant forall r :: 0 <= r < x.Length ==> x[r] == if r < 2 * e then w[r] else v[r]
    {
      RenormalizedAt(v, dirichlet, sqrt, e);
      var a, b := x[2 * e], x[2 * e + 1];
      assert a == v[2 * e] && b == v[2 * e + 1];
      norms[e] := Norm(a, b, sqrt);
      assert norms[e] == EdgeNorm(v, e, sqrt);
      if !dirichlet[e] && norms[e] > EPS {
        x[2 * e] := a / norms[e];
        x[2 * e + 1] := b / norms[e];
      }
    }
    assert x[..] == w;
  }

  /** A product with a positive factor is zero only when the other factor is. */
  lemma ZeroFactor(a: real, b: real)
    requires b > 0.0 && a * b == 0.0
    ensures a == 0.0
  {
  }

  /** Division undone by multiplication. */
  lemma DivMul(a: real, n: real)
    requires n != 0.0
    ensures (a / n) * n == a
  {
  }

  /** Dividing a pair by its norm n gives a pair of norm one. */
  lemma UnitPair(a: real, b: real, n: real)
    requires n > 0.0 && n * n == a * a + b * b
    ensures (a / n) * (a / n) + (b / n) * (b / n) == 1.0
  {
    DivMul(a, n);
    DivMul(b, n);
    var s := (a / n) * (a / n) + (b / n) * (b / n);
    assert (s * n - n) * n == 0.0;
    ZeroFactor(s * n - n, n);
    ZeroFactor(s - 1.0, n);
  }

  /** A rescaled edge has norm one afterwards. */
  lemma RenormalizeUnit(v: seq<real>, dirichlet: seq<bool>, sqrt: real -> real, e: nat)
    requires |v| == 2 * |dirichlet| && e < |dirichlet| && IsSqrt(sqrt)
    requires Rescaled(v, dirichlet, sqrt, e)
    ensures var w := Renormalized(v, dirichlet, sqrt); w[2 * e] * w[2 * e] + w[2 * e + 1] * w[2 * e + 1] == 1.0
  {
    RenormalizedAt(v, dirichlet, sqrt, e);
    assert v[2 * e] * v[2 * e] + v[2 * e + 1] * v[2 * e + 1] >= 0.0;
    UnitPair(v[2 * e], v[2 * e + 1], EdgeNorm(v, e, sqrt));
  }

  /** A pair of norm one: the square root of 1 is 1. */
  lemma NormOfUnit(a: real, b: real, sqrt: real -> real)
    requires IsSqrt(sqrt) && a * a + b * b == 1.0
    ensures Norm(a, b, sqrt) == 1.0
  {
    assert Norm(a, b, sqrt) >= 0.0 && Norm(a, b, sqrt) * Norm(a, b, sqrt) == 1.0;
    ZeroFactor(Norm(a, b, sqrt) - 1.0, Norm(a, b, sqrt) + 1.0);
  }

  /** The second renormalisation leaves both entries of edge e of a renormalised vector as they are. */
  lemma IdempotentAt(v: seq<real>, dirichlet: seq<bool>, sqrt: real -> real, e: nat)
    requires |v| == 2 * |dirichlet| && e < |dirichlet| && IsSqrt(sqrt)
    ensures var w := Renormalized(v, dirichlet, sqrt);
            !Rescaled(w, dirichlet, sqrt, e) || EdgeNorm(w, e, sqrt) == 1.0
  {
    RenormalizedAt(v, dirichlet, sqrt, e);
    if Rescaled(v, dirichlet, sqrt, e) {
      var w := Renormalized(v, dirichlet, sqrt);
      RenormalizeUnit(v, dirichlet, sqrt, e);
      NormOfUnit(w[2 * e], w[2 * e + 1], sqrt);
    }
  }

  /** Renormalising twice is renormalising once: the second pass divides unit edges by 1. */
  lemma RenormalizeIdempotent(v: seq<real>, dirichlet: seq<bool>, sqrt: real -> real)
    requires |v| == 2 * |dirichlet| && IsSqrt(sqrt)
    ensures Renormalized(Renormalized(v, dirichlet, sqrt), dirichlet, sqrt) == Renormalized(v, dirichlet, sqrt)
  {
    var w := Renormalized(v, dirichlet, sqrt);
    forall r | 0 <= r < |w|
      ensures Renormalized(w, dirichlet, sqrt)[r] == w[r]
    {
      IdempotentAt(v, dirichlet, sqrt, r / 2);
    }
  }

  /** The solve of line 578 keeps the size of the right-hand side whenever it succeeds. */
  ghost predicate KeepsSize(solve: (seq<seq<nat>>, seq<seq<real>>, seq<real>) -> Option<seq<real>>) {
    forall cols, vals, b :: solve(cols, vals, b).Some? ==> |solve(cols, vals, b).value| == |b|
  }

  /** y solves the compressed system (cols, vals) y = b exactly. */
  ghost predicate Solves(cols: seq<seq<nat>>, vals: seq<seq<real>>, b: seq<real>, y: seq<real>) {
    && |cols| == |vals| == |b| == |y|
    && forall i :: 0 <= i < |cols| ==>
         && |cols[i]| == |vals[i]|
         && (forall t :: 0 <= t < |cols[i]| ==> cols[i][t] < |y|)
         && RowDot(cols[i], vals[i], y) == b[i]
  }

  /** A solver that, whenever it succeeds, returns an exact solution. */
  ghost predicate ExactSolver(solve: (seq<seq<nat>>, seq<seq<real>>, seq<real>) -> Option<seq<real>>) {
    forall cols, vals, b :: solve(cols, vals, b).Some? ==> Solves(cols, vals, b, solve(cols, vals, b).value)
  }

  /** Lines 559-595, one iteration: solve with B = x, then renormalise. */
  function Step(sys: System, solve: (seq<seq<nat>>, seq<seq<real>>, seq<real>) -> Option<seq<real>>,
                sqrt: real -> real, dt: real, x: seq<real>): (r: Option<seq<real>>)
    requires ValidSystem(sys) && KeepsSize(solve) && |x| == 2 * |sys.dirichlet|
    ensures r.Some? ==> |r.value| == |x|
  {
    match solve(sys.columns, ImplicitValues(sys, dt), x)
    case None => None
    case Some(y) => Some(Renormalized(y, sys.dirichlet, sqrt))
  }

  /** Lines 558-596 from iteration iter on: None as soon as a solve fails. */
  function Run(sys: System, solve: (seq<seq<nat>>, seq<seq<real>>, seq<real>) -> Option<seq<real>>,
               sqrt: real -> real, dtInitial: real, dtFinal: real, iter: nat, x: seq<real>): (r: Option<seq<real>>)
    requires ValidSystem(sys) && KeepsSize(solve) && |x| == 2 * |sys.dirichlet| && iter <= NB_ITER
    ensures r.Some? ==> |r.value| == |x|
    decreases NB_ITER - iter
  {
    if iter == NB_ITER then Some(x)
    else match Step(sys, solve, sqrt, TimeStep(dtInitial, dtFinal, iter), x)
      case None => None
      case Some(y) => Run(sys, solve, sqrt, dtInitial, dtFinal, iter + 1, y)
  }

  /**
   * Lines 555-596: x starts as rhs; each of the ten iterations rewrites
   * the matrix, solves with the previous x as right-hand side and
   * renormalises x in place. A failed solve ends the loop with false.
   */
  method HeatLoop(sys: System, solve: (seq<seq<nat>>, seq<seq<real>>, seq<real>) -> Option<seq<real>>,
                  sqrt: real -> real, dtInitial: real, dtFinal: real, rhs: seq<real>)
    returns (ok: bool, xs: seq<real>)
    requires ValidSystem(sys) && KeepsSize(solve) && |rhs| == 2 * |sys.dirichlet|
    ensures ok <==> Run(sys, solve, sqrt, dtInitial, dtFinal, 0, rhs).Some?
    ensures ok ==> xs == Run(sys, solve, sqrt, dtInitial, dtFinal, 0, rhs).value
  {
    var x := new real[|rhs|](i requires 0 <= i < |rhs| => rhs[i]);
    assert x[..] == rhs;
    for iter := 0 to NB_ITER
      invariant x.Length == |rhs|
      invariant Run(sys, solve, sqrt, dtInitial, dtFinal, 0, rhs) == Run(sys, solve, sqrt, dtInitial, dtFinal, iter, x[..])
    {
      var dt := TimeStep(dtInitial, dtFinal, iter);
      var aval := BuildImplicit(sys, dt);
      var b := x[..];
      var res := solve(sys.columns, aval, b);
      if res.None? {
        return false, b;
      }
      forall i | 0 <= i < x.Length {
        x[i] := res.value[i];
      }
      assert x[..] == res.value;
      Renormalize(x, sys.dirichlet, sqrt);
    }
    ok, xs := true, x[..];
  }

  /** A one-entry row (r) with value 1 makes an exact solution keep b[r]. */
  lemma IdentityRow(cols: seq<seq<nat>>, vals: seq<seq<real>>, b: seq<real>, y: seq<real>, r: nat)
    requires Solves(cols, vals, b, y) && r < |cols| && cols[r] == [r] && vals[r] == [1.0]
    ensures y[r] == b[r]
  {
    var p := Products(cols[r], vals[r], y);
    assert p[0] == 1.0 * y[r];
    assert Sum(p, 1) == Sum(p, 0) + p[0];
  }

  /** One iteration keeps the entry of a one-entry diagonal row of a Dirichlet edge. */
  lemma StepKeepsDirichletRow(sys: System, solve: (seq<seq<nat>>, seq<seq<real>>, seq<real>) -> Option<seq<real>>,
                              sqrt: real -> real, dt: real, x: seq<real>, r: nat)
    requires ValidSystem(sys) && KeepsSize(solve) && ExactSolver(solve) && |x| == 2 * |sys.dirichlet|
    requires r < |x| && sys.dirichlet[r / 2] && sys.columns[r] == [r]
    requires Step(sys, solve, sqrt, dt, x).Some?
    ensures Step(sys, solve, sqrt, dt, x).value[r] == x[r]
  {
    var aval := ImplicitValues(sys, dt);
    var y := solve(sys.columns, aval, x).value;
    IdentityRow(sys.columns, aval, x, y, r);
    RenormalizedAt(y, sys.dirichlet, sqrt, r / 2);
    assert r == 2 * (r / 2) || r == 2 * (r / 2) + 1;
  }

  /**
   * Lines 573-574 with an exact solver: an edge whose rows hold only their
   * diagonal keeps the entries of x through every remaining iteration.
   */
  lemma {:induction false} DirichletFixed(sys: System, solve: (seq<seq<nat>>, seq<seq<real>>, seq<real>) -> Option<seq<real>>,
                                          sqrt: real -> real, dtInitial: real, dtFinal: real, iter: nat, x: seq<real>, r: nat)
    requires ValidSystem(sys) && KeepsSize(solve) && ExactSolver(solve)
    requires |x| == 2 * |sys.dirichlet| && iter <= NB_ITER
    requires r < |x| && sys.dirichlet[r / 2] && sys.columns[r] == [r]
    requires Run(sys, solve, sqrt, dtInitial, dtFinal, iter, x).Some?
    ensures Run(sys, solve, sqrt, dtInitial, dtFinal, iter, x).value[r] == x[r]
    decreases NB_ITER - iter
  {
    if iter < NB_ITER {
      var dt := TimeStep(dtInitial, dtFinal, iter);
      StepKeepsDirichletRow(sys, solve, sqrt, dt, x, r);
      DirichletFixed(sys, solve, sqrt, dtInitial, dtFinal, iter + 1, Step(sys, solve, sqrt, dt, x).value, r);
    }
  }

  /** Row i of a system an exact solver has solved. */
  lemma SolvedRow(solve: (seq<seq<nat>>, seq<seq<real>>, seq<real>) -> Option<seq<real>>,
                  cols: seq<seq<nat>>, vals: seq<seq<real>>, b: seq<real>, y: seq<real>, i: nat)
    requires ExactSolver(solve) && solve(cols, vals, b) == Some(y) && i < |cols|
    ensures |cols| == |vals| == |b| == |y| && |cols[i]| == |vals[i]|
    ensures forall t :: 0 <= t < |cols[i]| ==> cols[i][t] < |y|
    ensures RowDot(cols[i], vals[i], y) == b[i]
  {
    assert Solves(cols, vals, b, y);
  }

  /**
   * One iteration with an exact solver is an implicit Euler step of the
   * heat equation on a free row i: y[i] (when the row keeps its diagonal)
   * plus dt / Mass[i] times row i of K applied to y gives back x[i].
   */
  lemma ImplicitEulerStep(sys: System, solve: (seq<seq<nat>>, seq<seq<real>>, seq<real>) -> Option<seq<real>>,
                          dt: real, x: seq<real>, y: seq<real>, i: nat)
    requires ValidSystem(sys) && ExactSolver(solve)
    requires solve(sys.columns, ImplicitValues(sys, dt), x) == Some(y)
    requires i < |sys.columns| && !sys.dirichlet[i / 2] && StrictlyIncreasing(sys.columns[i])
    ensures forall t :: 0 <= t < |sys.columns[i]| ==> sys.columns[i][t] < |y|
    ensures (if i in sys.columns[i] then y[i] else 0.0) + Quot(dt, sys.mass[i]) * RowDot(sys.columns[i], sys.values[i], y) == x[i]
  {
    var aval := ImplicitValues(sys, dt);
    SolvedRow(solve, sys.columns, aval, x, y, i);
    assert aval[i] == ImplicitRow(sys.columns[i], sys.values[i], i, Quot(dt, sys.mass[i]));
    ImplicitRowProduct(sys.columns[i], sys.values[i], i, Quot(dt, sys.mass[i]), y);
  }
}
