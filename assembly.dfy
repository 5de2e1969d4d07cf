/**
 * Assembly of the sparse stiffness matrix (prepare_system): the diagonal
 * entries are appended to the coupling entries as (i, i) entries, the
 * whole list is sorted by (row, column), entries with equal (row, column)
 * are summed, and every sum whose magnitude exceeds EPS is appended to its
 * row, in increasing column order.
 */
module Assembly {
  import opened QmtTypes
  import opened Stiffness

  /** (r, c) comes strictly before (i, j) in row-major order. */
  predicate Below(r: nat, c: nat, i: nat, j: nat) {
    r < i || (r == i && c < j)
  }

  /** IJV::operator<: the row-major order of the (i, j) keys; the value plays no part. */
  predicate KeyLess(a: IJV, b: IJV) {
    Below(a.i, a.j, b.i, b.j)
  }

  /** Sorted by key: no entry has a key below that of an earlier one. */
  ghost predicate SortedByKey(s: seq<IJV>) {
    forall a, b :: 0 <= a < b < |s| ==> !KeyLess(s[b], s[a])
  }

  /** The sum of the values of the entries of s at (i, j). */
  function SumAt(s: seq<IJV>, i: nat, j: nat): real
  {
    if |s| == 0 then 0.0
    else SumAt(s[..|s| - 1], i, j) + (if s[|s| - 1].i == i && s[|s| - 1].j == j then s[|s| - 1].val else 0.0)
  }

  lemma {:induction false} SumAtAppend(a: seq<IJV>, b: seq<IJV>, i: nat, j: nat)
    ensures SumAt(a + b, i, j) == SumAt(a, i, j) + SumAt(b, i, j)
    decreases |b|
  {
    if |b| > 0 {
      var b' := b[..|b| - 1];
      assert (a + b)[..|a + b| - 1] == a + b';
      SumAtAppend(a, b', i, j);
    } else {
      assert a + b == a;
    }
  }

  /** Extending a prefix by one entry adds that entry's value when its key is (i, j). */
  lemma SumAtPrefix(s: seq<IJV>, k: nat, i: nat, j: nat)
    requires k < |s|
    ensures SumAt(s[..k + 1], i, j) == SumAt(s[..k], i, j) + (if s[k].i == i && s[k].j == j then s[k].val else 0.0)
  {
    assert s[..k + 1][..k] == s[..k];
  }

  /** An (i, j) that no entry has sums to zero. */
  lemma {:induction false} SumAtAbsent(s: seq<IJV>, i: nat, j: nat)
    requires forall a :: 0 <= a < |s| ==> !(s[a].i == i && s[a].j == j)
    ensures SumAt(s, i, j) == 0.0
  {
    if |s| > 0 {
      SumAtAbsent(s[..|s| - 1], i, j);
    }
  }

  /** Reordering the entries does not change any sum. */
  lemma {:induction false} SumAtPermutation(a: seq<IJV>, b: seq<IJV>, i: nat, j: nat)
    requires multiset(a) == multiset(b)
    ensures SumAt(a, i, j) == SumAt(b, i, j)
    decreases |a|
  {
    if |a| == 0 {
      assert |b| == |multiset(b)| == 0;
    } else {
      var x := a[|a| - 1];
      var a' := a[..|a| - 1];
      assert a == a' + [x];
      assert x in multiset(b);
      var p :| 0 <= p < |b| && b[p] == x;
      var b' := b[..p] + b[p + 1..];
      assert b == b[..p] + [x] + b[p + 1..];
      assert multiset(b) == multiset(b[..p]) + multiset([x]) + multiset(b[p + 1..]);
      assert multiset(b') == multiset(b[..p]) + multiset(b[p + 1..]);
      assert multiset(a) == multiset(a') + multiset([x]);
      assert multiset(a') == multiset(a) - multiset([x]);
      assert multiset(b') == multiset(b) - multiset([x]);
      SumAtPermutation(a', b', i, j);
      SumAtAppend(b[..p] + [x], b[p + 1..], i, j);
      SumAtAppend(b[..p], [x], i, j);
      SumAtAppend(b[..p], b[p + 1..], i, j);
      assert SumAt([x], i, j) == SumAt(a, i, j) - SumAt(a', i, j) by {
        assert [x][..0] == [];
      }
    }
  }

  /** Inserting x before the first entry whose key is above it keeps the list sorted. */
  lemma InsertKeepsSorted(r: seq<IJV>, k: nat, x: IJV)
    requires SortedByKey(r) && k <= |r|
    requires forall a :: 0 <= a < k ==> !KeyLess(x, r[a])
    requires k < |r| ==> KeyLess(x, r[k])
    ensures SortedByKey(r[..k] + [x] + r[k..])
  {
    var next := r[..k] + [x] + r[k..];
    assert forall a :: 0 <= a < |next| ==> next[a] == (if a < k then r[a] else if a == k then x else r[a - 1]);
    assert forall a :: k <= a < |r| ==> !KeyLess(r[a], x) by {
      forall a | k <= a < |r|
        ensures !KeyLess(r[a], x)
      {
        assert !KeyLess(r[a], r[k]);
      }
    }
  }

  /**
   * std::sort over IJV::operator<: the entries are put in key order. The
   * order among entries with equal keys is unspecified, and no later step
   * depends on it.
   */
  method SortByKey(s: seq<IJV>) returns (r: seq<IJV>)
    ensures SortedByKey(r)
    ensures multiset(r) == multiset(s)
  {
    r := [];
    for i := 0 to |s|
      invariant SortedByKey(r)
      invariant multiset(r) == multiset(s[..i])
    {
      var x := s[i];
      var k := 0;
      while k < |r| && !KeyLess(x, r[k])
        invariant k <= |r|
        invariant forall a :: 0 <= a < k ==> !KeyLess(x, r[a])
      {
        k := k + 1;
      }
      InsertKeepsSorted(r, k, x);
      assert r == r[..k] + r[k..];
      r := r[..k] + [x] + r[k..];
      assert s[..i + 1] == s[..i] + [x];
    }
    assert s[..|s|] == s;
  }

  /** Lines 336-338: the coupling entries followed by the diagonal entries as (i, i) entries. */
  function Coefficients(kDiag: seq<IV>, kCoefs: seq<IJV>): (r: seq<IJV>)
    ensures |r| == |kCoefs| + |kDiag|
    ensures r[..|kCoefs|] == kCoefs
    ensures forall p :: 0 <= p < |kDiag| ==> r[|kCoefs| + p] == IJV(kDiag[p].i, kDiag[p].i, kDiag[p].val)
  {
    kCoefs + seq(|kDiag|, p requires 0 <= p < |kDiag| => IJV(kDiag[p].i, kDiag[p].i, kDiag[p].val))
  }

  /**
   * Row r after assembly: it is the row as given followed by the appended
   * columns cs and values vs. cs is strictly increasing, each vs[t] is
   * the sum of the entries at (r, cs[t]), and the columns appended are
   * exactly those whose sum exceeds EPS in magnitude.
   */
  ghost predicate RowCompressed(col0: seq<nat>, val0: seq<real>, col: seq<nat>, val: seq<real>, coefs: seq<IJV>, r: nat)
  {
    && |col0| <= |col| && col[..|col0|] == col0
    && |val0| <= |val| && val[..|val0|] == val0
    && |col| - |col0| == |val| - |val0|
    && var cs, vs := col[|col0|..], val[|val0|..];
       && StrictlyIncreasing(cs)
       && (forall t :: 0 <= t < |cs| ==> vs[t] == SumAt(coefs, r, cs[t]))
       && (forall c: nat :: c in cs <==> Abs(SumAt(coefs, r, c)) > EPS)
  }

  /** Every row is compressed (RowCompressed) and the row count is unchanged. */
  ghost predicate Compressed(columns0: seq<seq<nat>>, values0: seq<seq<real>>,
                             columns: seq<seq<nat>>, values: seq<seq<real>>, coefs: seq<IJV>)
    requires |columns0| == |values0|
  {
    && |columns| == |columns0| && |values| == |values0|
    && forall r :: 0 <= r < |columns0| ==> RowCompressed(columns0[r], values0[r], columns[r], values[r], coefs, r)
  }

  /**
   * The loop state of prepare_system for row r: the appended part holds,
   * in increasing order, the columns c with (r, c) below (bi, bj) whose
   * sum over the sorted entries exceeds EPS, with those sums.
   */
  ghost predicate RowBelow(col0: seq<nat>, val0: seq<real>, col: seq<nat>, val: seq<real>, s: seq<IJV>, r: nat, bi: nat, bj: nat)
  {
    && |col0| <= |col| && col[..|col0|] == col0
    && |val0| <= |val| && val[..|val0|] == val0
    && |col| - |col0| == |val| - |val0|
    && var cs, vs := col[|col0|..], val[|val0|..];
       && StrictlyIncreasing(cs)
       && (forall t :: 0 <= t < |cs| ==> Below(r, cs[t], bi, bj) && vs[t] == SumAt(s, r, cs[t]) && Abs(vs[t]) > EPS)
       && (forall c: nat :: Below(r, c, bi, bj) && Abs(SumAt(s, r, c)) > EPS ==> c in cs)
  }

  ghost predicate Emitted(columns0: seq<seq<nat>>, values0: seq<seq<real>>,
                          columns: seq<seq<nat>>, values: seq<seq<real>>, s: seq<IJV>, bi: nat, bj: nat)
    requires |columns0| == |values0|
  {
    && |columns| == |columns0| && |values| == |values0|
    && forall r :: 0 <= r < |columns0| ==> RowBelow(columns0[r], values0[r], columns[r], values[r], s, r, bi, bj)
  }

  /** Nothing is emitted before the first key: the empty appended rows satisfy the loop state. */
  lemma EmittedInitially(columns0: seq<seq<nat>>, values0: seq<seq<real>>, s: seq<IJV>)
    requires |columns0| == |values0| && |s| > 0 && SortedByKey(s)
    ensures Emitted(columns0, values0, columns0, values0, s, s[0].i, s[0].j)
  {
    forall r, c: nat | 0 <= r < |columns0| && Below(r, c, s[0].i, s[0].j)
      ensures SumAt(s, r, c) == 0.0
    {
      forall a | 0 <= a < |s|
        ensures !(s[a].i == r && s[a].j == c)
      {
        assert a == 0 || !KeyLess(s[a], s[0]);
      }
      SumAtAbsent(s, r, c);
    }
    forall r | 0 <= r < |columns0|
      ensures RowBelow(columns0[r], values0[r], columns0[r], values0[r], s, r, s[0].i, s[0].j)
    {
      assert columns0[r][|columns0[r]|..] == [];
    }
  }

  /**
   * Moving the bound from key (ci, cj) to the next key (ni, nj), after
   * appending the sum acc at (ci, cj) when it exceeds EPS, keeps row r
   * in the loop state, given that no key strictly between the two has a
   * nonzero sum.
   */
  lemma AdvanceRow(col0: seq<nat>, val0: seq<real>, col: seq<nat>, val: seq<real>, s: seq<IJV>,
                   r: nat, ci: nat, cj: nat, ni: nat, nj: nat, acc: real)
    requires RowBelow(col0, val0, col, val, s, r, ci, cj)
    requires Below(ci, cj, ni, nj)
    requires acc == SumAt(s, ci, cj)
    requires forall c: nat :: Below(ci, cj, r, c) && Below(r, c, ni, nj) ==> SumAt(s, r, c) == 0.0
    ensures var emit := r == ci && Abs(acc) > EPS;
            RowBelow(col0, val0, if emit then col + [cj] else col, if emit then val + [acc] else val, s, r, ni, nj)
  {
    var emit := r == ci && Abs(acc) > EPS;
    var col', val' := if emit then col + [cj] else col, if emit then val + [acc] else val;
    var cs, vs := col[|col0|..], val[|val0|..];
    var cs', vs' := col'[|col0|..], val'[|val0|..];
    if emit {
      assert cs' == cs + [cj] && vs' == vs + [acc];
      assert col'[..|col0|] == col0 && val'[..|val0|] == val0;
    }
    forall c: nat | Below(r, c, ni, nj) && Abs(SumAt(s, r, c)) > EPS
      ensures c in cs'
    {
      if !Below(r, c, ci, cj) {
        assert r == ci && c == cj;
        assert cs'[|cs'| - 1] == c;
      }
    }
  }

  lemma AdvanceAll(columns0: seq<seq<nat>>, values0: seq<seq<real>>, columns: seq<seq<nat>>, values: seq<seq<real>>,
                   s: seq<IJV>, ci: nat, cj: nat, ni: nat, nj: nat, acc: real)
    requires |columns0| == |values0| && ci < |columns0|
    requires Emitted(columns0, values0, columns, values, s, ci, cj)
    requires Below(ci, cj, ni, nj)
    requires acc == SumAt(s, ci, cj)
    requires forall r: nat, c: nat :: Below(ci, cj, r, c) && Below(r, c, ni, nj) ==> SumAt(s, r, c) == 0.0
    ensures var emit := Abs(acc) > EPS;
            Emitted(columns0, values0,
                    if emit then columns[ci := columns[ci] + [cj]] else columns,
                    if emit then values[ci := values[ci] + [acc]] else values, s, ni, nj)
  {
    forall r | 0 <= r < |columns0|
      ensures var emit := r == ci && Abs(acc) > EPS;
              RowBelow(columns0[r], values0[r], if emit then columns[r] + [cj] else columns[r],
                       if emit then values[r] + [acc] else values[r], s, r, ni, nj)
    {
      AdvanceRow(columns0[r], values0[r], columns[r], values[r], s, r, ci, cj, ni, nj, acc);
    }
  }

  /**
   * Where the key changes between positions k - 1 and k of the sorted
   * entries: the sum at the old key is complete in the prefix, the new key
   * has no entry in the prefix, and no key strictly between the two has
   * an entry at all.
   */
  lemma KeyChange(s: seq<IJV>, k: nat)
    requires SortedByKey(s) && 0 < k < |s|
    requires KeyLess(s[k - 1], s[k])
    ensures SumAt(s, s[k - 1].i, s[k - 1].j) == SumAt(s[..k], s[k - 1].i, s[k - 1].j)
    ensures SumAt(s[..k], s[k].i, s[k].j) == 0.0
    ensures forall r: nat, c: nat :: Below(s[k - 1].i, s[k - 1].j, r, c) && Below(r, c, s[k].i, s[k].j) ==> SumAt(s, r, c) == 0.0
  {
    assert s == s[..k] + s[k..];
    forall a | k <= a < |s|
      ensures KeyLess(s[k - 1], s[a])
    {
      assert a == k || !KeyLess(s[a], s[k]);
    }
    forall a | 0 <= a < k
      ensures KeyLess(s[a], s[k])
    {
      assert a == k - 1 || !KeyLess(s[k - 1], s[a]);
    }
    SumAtAppend(s[..k], s[k..], s[k - 1].i, s[k - 1].j);
    SumAtAbsent(s[k..], s[k - 1].i, s[k - 1].j);
    SumAtAbsent(s[..k], s[k].i, s[k].j);
    forall r: nat, c: nat | Below(s[k - 1].i, s[k - 1].j, r, c) && Below(r, c, s[k].i, s[k].j)
      ensures SumAt(s, r, c) == 0.0
    {
      SumAtAbsent(s, r, c);
    }
  }

  /** No key above the last one has an entry. */
  lemma AboveLast(s: seq<IJV>)
    requires SortedByKey(s) && |s| > 0
    ensures forall r: nat, c: nat :: Below(s[|s| - 1].i, s[|s| - 1].j, r, c) ==> SumAt(s, r, c) == 0.0
  {
    forall r: nat, c: nat | Below(s[|s| - 1].i, s[|s| - 1].j, r, c)
      ensures SumAt(s, r, c) == 0.0
    {
      forall a | 0 <= a < |s|
        ensures !(s[a].i == r && s[a].j == c)
      {
        assert a == |s| - 1 || !KeyLess(s[|s| - 1], s[a]);
      }
      SumAtAbsent(s, r, c);
    }
  }

  /** Once every row is below the bound, the loop state is the assembled matrix of any reordering of the entries. */
  lemma EmittedIsCompressed(columns0: seq<seq<nat>>, values0: seq<seq<real>>, columns: seq<seq<nat>>, values: seq<seq<real>>,
                            s: seq<IJV>, coefs: seq<IJV>)
    requires |columns0| == |values0|
    requires Emitted(columns0, values0, columns, values, s, |columns0|, 0)
    requires multiset(s) == multiset(coefs)
    ensures Compressed(columns0, values0, columns, values, coefs)
  {
    forall r, c: nat {:trigger SumAt(coefs, r, c)} | 0 <= r < |columns0|
      ensures SumAt(s, r, c) == SumAt(coefs, r, c)
    {
      SumAtPermutation(s, coefs, r, c);
    }
    forall r | 0 <= r < |columns0|
      ensures RowCompressed(columns0[r], values0[r], columns[r], values[r], coefs, r)
    {
      var cs := columns[r][|columns0[r]|..];
      forall c: nat | c in cs
        ensures Abs(SumAt(coefs, r, c)) > EPS
      {
        var t :| 0 <= t < |cs| && cs[t] == c;
      }
    }
  }

  /**
   * Lines 348-351 (and the same code at 356-359 and 367-370): append the
   * sum acc at (ci, cj) to row ci when it exceeds EPS. This moves the loop
   * state from bound (ci, cj) to the next key (ni, nj) when no key in
   * between has an entry.
   */
  method Flush(columns: seq<seq<nat>>, values: seq<seq<real>>, ci: nat, cj: nat, acc: real,
               ghost columns0: seq<seq<nat>>, ghost values0: seq<seq<real>>, ghost s: seq<IJV>, ghost ni: nat, ghost nj: nat)
    returns (columns': seq<seq<nat>>, values': seq<seq<real>>)
    requires |columns0| == |values0| && ci < |columns0|
    requires Emitted(columns0, values0, columns, values, s, ci, cj)
    requires Below(ci, cj, ni, nj)
    requires acc == SumAt(s, ci, cj)
    requires forall r: nat, c: nat :: Below(ci, cj, r, c) && Below(r, c, ni, nj) ==> SumAt(s, r, c) == 0.0
    ensures Emitted(columns0, values0, columns', values', s, ni, nj)
  {
    AdvanceAll(columns0, values0, columns, values, s, ci, cj, ni, nj, acc);
    columns', values' := columns, values;
    if Abs(acc) > EPS {
      columns' := columns'[ci := columns'[ci] + [cj]];
      values' := values'[ci := values'[ci] + [acc]];
    }
  }

  /**
   * Lines 340-371: the pass over the sorted entries that sums runs of
   * equal keys and appends every sum above EPS to its row.
   */
  method Compact(sorted: seq<IJV>, columns0: seq<seq<nat>>, values0: seq<seq<real>>)
    returns (columns: seq<seq<nat>>, values: seq<seq<real>>)
    requires |sorted| > 0 && SortedByKey(sorted)
    requires |columns0| == |values0|
    requires forall a :: 0 <= a < |sorted| ==> sorted[a].i < |columns0|
    ensures Emitted(columns0, values0, columns, values, sorted, |columns0|, 0)
  {
    columns, values := columns0, values0;
    var curI := sorted[0].i;
    var curJ := sorted[0].j;
    var acc := sorted[0].val;
    EmittedInitially(columns0, values0, sorted);
    assert sorted[..1] == [sorted[0]];
    for k := 1 to |sorted|
      invariant curI == sorted[k - 1].i && curJ == sorted[k - 1].j
      invariant acc == SumAt(sorted[..k], curI, curJ)
      invariant Emitted(columns0, values0, columns, values, sorted, curI, curJ)
    {
      var i := sorted[k].i;
      var j := sorted[k].j;
      var v := sorted[k].val;
      SumAtPrefix(sorted, k, curI, curJ);
      SumAtPrefix(sorted, k, i, j);
      if i != curI {
        KeyChange(sorted, k);
        columns, values := Flush(columns, values, curI, curJ, acc, columns0, values0, sorted, i, j);
        curI := i;
        acc := v;
        curJ := j;
      } else if j != curJ {
        KeyChange(sorted, k);
        columns, values := Flush(columns, values, curI, curJ, acc, columns0, values0, sorted, i, j);
        curI := i;
        acc := v;
        curJ := j;
      } else {
        acc := acc + v;
      }
    }
    assert sorted[..|sorted|] == sorted;
    AboveLast(sorted);
    columns, values := Flush(columns, values, curI, curJ, acc, columns0, values0, sorted, |columns0|, 0);
  }

  /**
   * prepare_system. The entries must not be empty (the first one is read
   * unconditionally) and every row index must name a row of the output.
   * The output rows are the given rows with the assembled entries
   * appended (Compressed over the diagonal and coupling entries).
   */
  method PrepareSystem(kDiag: seq<IV>, kCoefs: seq<IJV>, columns0: seq<seq<nat>>, values0: seq<seq<real>>)
    returns (ok: bool, columns: seq<seq<nat>>, values: seq<seq<real>>)
    requires |kDiag| + |kCoefs| > 0
    requires |columns0| == |values0|
    requires forall p :: 0 <= p < |kCoefs| ==> kCoefs[p].i < |columns0|
    requires forall p :: 0 <= p < |kDiag| ==> kDiag[p].i < |columns0|
    ensures ok
    ensures Compressed(columns0, values0, columns, values, Coefficients(kDiag, kCoefs))
  {
    var coefs := kCoefs + seq(|kDiag|, p requires 0 <= p < |kDiag| => IJV(kDiag[p].i, kDiag[p].i, kDiag[p].val));
    assert coefs == Coefficients(kDiag, kCoefs);
    assert forall x :: x in coefs ==> x.i < |columns0| by {
      forall x | x in coefs
        ensures x.i < |columns0|
      {
        var a :| 0 <= a < |coefs| && coefs[a] == x;
        if a >= |kCoefs| {
          assert x.i == kDiag[a - |kCoefs|].i;
        }
      }
    }
    var sorted := SortByKey(coefs);
    assert forall a :: 0 <= a < |sorted| ==> sorted[a] in multiset(coefs);
    columns, values := Compact(sorted, columns0, values0);
    EmittedIsCompressed(columns0, values0, columns, values, sorted, coefs);
    ok := true;
  }
}
