/**
 * Triangle adjacency builder (compute_triangle_adjacencies).
 *
 * Every triangle t has three local edges lf = 0, 1, 2 joining its local
 * vertices lf and (lf + 1) % 3; the "face position" of local edge lf of
 * triangle t is 3 * t + lf. The builder deduplicates the sorted vertex
 * pairs of all face positions into unique edges, records for every unique
 * edge the positions where it occurs, and fills one neighbour slot per face
 * position:
 *   - an edge with one occurrence (boundary) leaves the slot NO_ID;
 *   - an edge with two occurrences (regular) stores in each slot the face
 *     position 3 * t + lf of the other occurrence;
 *   - an edge with k > 2 occurrences (non-manifold) appends k entries to a
 *     side table, entry pos listing the other k - 1 occurrences, and stores
 *     -(pos + 1) in the slot.
 */
module Adjacency {
  import opened QmtTypes
  import opened SortUnique

  /** The sorted vertex pair of face position p: local edge p % 3 of triangle p / 3. */
  function Face(triangles: seq<Id3>, p: nat): Id2
    requires p < 3 * |triangles|
  {
    var t := triangles[p / 3];
    Sorted(Corner(t, p % 3), Corner(t, (p % 3 + 1) % 3))
  }

  /** The sorted vertex pairs of all face positions, in position order (with duplicates). */
  function AllFaces(triangles: seq<Id3>): seq<Id2> {
    seq(3 * |triangles|, p requires 0 <= p < 3 * |triangles| => Face(triangles, p))
  }

  /** Face position 3 * i + lf is local edge lf of triangle i. */
  lemma FaceAt(triangles: seq<Id3>, i: nat, lf: nat)
    requires i < |triangles| && lf < 3
    ensures 3 * i + lf < 3 * |triangles|
    ensures Face(triangles, 3 * i + lf) == Sorted(Corner(triangles[i], lf), Corner(triangles[i], (lf + 1) % 3))
  {
    assert (3 * i + lf) / 3 == i && (3 * i + lf) % 3 == lf;
  }

  /**
   * The positions q < k with old2new[q] == u, in increasing order: the
   * occurrence list of unique edge u once the first k positions are scanned.
   */
  function Occurrences(old2new: seq<nat>, u: nat, k: nat): seq<nat>
    requires k <= |old2new|
  {
    if k == 0 then []
    else Occurrences(old2new, u, k - 1) + (if old2new[k - 1] == u then [k - 1] else [])
  }

  /** An occurrence list is strictly increasing and holds exactly the positions mapped to u. */
  lemma {:induction false} OccurrencesAre(old2new: seq<nat>, u: nat, k: nat)
    requires k <= |old2new|
    ensures StrictlyIncreasing(Occurrences(old2new, u, k))
    ensures forall q: nat :: q in Occurrences(old2new, u, k) <==> q < k && old2new[q] == u
  {
    if k > 0 {
      OccurrencesAre(old2new, u, k - 1);
      var prev := Occurrences(old2new, u, k - 1);
      var s := Occurrences(old2new, u, k);
      forall a, b | 0 <= a < b < |s| ensures s[a] < s[b] {
        if b == |prev| {
          assert s[a] == prev[a] && prev[a] in prev;
        }
      }
    }
  }

  /** An occurrence q of u stands in the list at index "number of earlier occurrences of u". */
  lemma {:induction false} OccurrenceRank(old2new: seq<nat>, u: nat, k: nat, q: nat)
    requires k <= |old2new| && q < k && old2new[q] == u
    ensures |Occurrences(old2new, u, q)| < |Occurrences(old2new, u, k)|
    ensures Occurrences(old2new, u, k)[|Occurrences(old2new, u, q)|] == q
  {
    if k - 1 > q {
      OccurrenceRank(old2new, u, k - 1, q);
    }
  }

  /** The j-th element of an occurrence list has exactly j earlier occurrences. */
  lemma RankOfOccurrence(old2new: seq<nat>, u: nat, k: nat, j: nat)
    requires k <= |old2new| && j < |Occurrences(old2new, u, k)|
    ensures Occurrences(old2new, u, k)[j] < k
    ensures |Occurrences(old2new, u, Occurrences(old2new, u, k)[j])| == j
  {
    var L := Occurrences(old2new, u, k);
    OccurrencesAre(old2new, u, k);
    assert L[j] in L;
    OccurrenceRank(old2new, u, k, L[j]);
  }

  /** The elements of L other than x, in the order of L (the list built at lines 140-145). */
  function Others(L: seq<nat>, x: nat): seq<nat> {
    if L == [] then []
    else Others(L[..|L| - 1], x) + (if L[|L| - 1] != x then [L[|L| - 1]] else [])
  }

  /** Excluding an element that is absent changes nothing. */
  lemma {:induction false} OthersAbsent(L: seq<nat>, x: nat)
    requires x !in L
    ensures Others(L, x) == L
  {
    if L != [] {
      OthersAbsent(L[..|L| - 1], x);
      assert L[..|L| - 1] + [L[|L| - 1]] == L;
    }
  }

  /** In a duplicate-free list, the others of L[j] are L without index j. */
  lemma {:induction false} OthersSkipsOne(L: seq<nat>, j: nat)
    requires StrictlyIncreasing(L) && j < |L|
    ensures Others(L, L[j]) == L[..j] + L[j + 1..]
  {
    var n := |L| - 1;
    var front := L[..n];
    if j == n {
      assert L[j] !in front;
      OthersAbsent(front, L[j]);
    } else {
      assert front[j] == L[j];
      OthersSkipsOne(front, j);
      assert front[..j] == L[..j];
      assert front[j + 1..] + [L[n]] == L[j + 1..];
    }
  }

  /** The side-table entries of one non-manifold edge: entry j lists the others of occurrence j. */
  function NmRows(L: seq<nat>): seq<seq<nat>> {
    seq(|L|, j requires 0 <= j < |L| => Others(L, L[j]))
  }

  /** The non-manifold side table after the unique edges before u have been processed. */
  function NmTable(uIEdges: seq<Id2>, toOld: seq<seq<nat>>, u: nat): seq<seq<nat>>
    requires u <= |uIEdges| && |toOld| == |uIEdges|
  {
    if u == 0 then []
    else NmTable(uIEdges, toOld, u - 1)
         + (if uIEdges[u - 1] != NO_FACE && |toOld[u - 1]| > 2 then NmRows(toOld[u - 1]) else [])
  }

  /** The side table built for the edges before u is a prefix of the one built for the edges before w. */
  lemma {:induction false} NmTablePrefix(uIEdges: seq<Id2>, toOld: seq<seq<nat>>, u: nat, w: nat)
    requires u <= w <= |uIEdges| && |toOld| == |uIEdges|
    ensures NmTable(uIEdges, toOld, u) <= NmTable(uIEdges, toOld, w)
  {
    if u < w {
      NmTablePrefix(uIEdges, toOld, u, w - 1);
    }
  }

  /** The unique-edge tables: uIEdges, old2IEdge and uIEdgeToOld. */
  datatype EdgeTables = EdgeTables(uIEdges: seq<Id2>, old2IEdge: seq<nat>, toOld: seq<seq<nat>>)

  /**
   * The tables the builder produces for `triangles`: the unique edges are
   * strictly sorted and each of them is some face; every face position maps
   * to the unique edge equal to its sorted pair; every occurrence list is
   * the increasing list of the positions mapped to its edge.
   */
  ghost predicate WellFormed(tb: EdgeTables, triangles: seq<Id3>) {
    && |tb.old2IEdge| == 3 * |triangles|
    && |tb.toOld| == |tb.uIEdges|
    && StrictlySorted(tb.uIEdges)
    && (forall u :: 0 <= u < |tb.uIEdges| ==> tb.uIEdges[u] in AllFaces(triangles))
    && (forall p :: 0 <= p < |tb.old2IEdge| ==>
          tb.old2IEdge[p] < |tb.uIEdges| && tb.uIEdges[tb.old2IEdge[p]] == Face(triangles, p))
    && (forall u :: 0 <= u < |tb.toOld| ==> tb.toOld[u] == Occurrences(tb.old2IEdge, u, |tb.old2IEdge|))
  }

  /** What indexing the tables needs: every stored index is in range. */
  ghost predicate Indexable(tb: EdgeTables) {
    && |tb.old2IEdge| % 3 == 0
    && |tb.toOld| == |tb.uIEdges|
    && (forall p :: 0 <= p < |tb.old2IEdge| ==> tb.old2IEdge[p] < |tb.uIEdges|)
    && (forall u, s :: 0 <= u < |tb.toOld| && 0 <= s < |tb.toOld[u]| ==> tb.toOld[u][s] < |tb.old2IEdge|)
  }

  lemma WellFormedIndexable(tb: EdgeTables, triangles: seq<Id3>)
    requires WellFormed(tb, triangles)
    ensures Indexable(tb)
  {
    forall u, s | 0 <= u < |tb.toOld| && 0 <= s < |tb.toOld[u]|
      ensures tb.toOld[u][s] < |tb.old2IEdge|
    {
      OccurrencesAre(tb.old2IEdge, u, |tb.old2IEdge|);
      assert tb.toOld[u][s] in tb.toOld[u];
    }
  }

  /**
   * The occurrence lists partition the face positions: position p lies in
   * the list of its own unique edge and in no other, and each list is
   * strictly increasing.
   */
  lemma OccurrencesPartition(tb: EdgeTables, triangles: seq<Id3>, p: nat, u: nat)
    requires WellFormed(tb, triangles)
    requires p < 3 * |triangles| && u < |tb.uIEdges|
    ensures StrictlyIncreasing(tb.toOld[u])
    ensures p in tb.toOld[u] <==> u == tb.old2IEdge[p]
  {
    OccurrencesAre(tb.old2IEdge, u, |tb.old2IEdge|);
  }

  /** Every face position's unique edge is the sorted pair of that local edge. */
  lemma UniqueEdgeOfFace(tb: EdgeTables, triangles: seq<Id3>, i: nat, lf: nat)
    requires WellFormed(tb, triangles)
    requires i < |triangles| && lf < 3
    ensures tb.old2IEdge[3 * i + lf] < |tb.uIEdges|
    ensures tb.uIEdges[tb.old2IEdge[3 * i + lf]] == Sorted(Corner(triangles[i], lf), Corner(triangles[i], (lf + 1) % 3))
  {
    FaceAt(triangles, i, lf);
  }

  /** A unique edge the builder refuses: one endpoint is NO_ID, the other is not. */
  predicate BadEdge(e: Id2) {
    e != NO_FACE && (e.v0 == NO_ID || e.v1 == NO_ID)
  }

  /**
   * The value the builder leaves in the slot of face position p, given
   * that every unique edge was accepted.
   */
  ghost function ExpectedSlot(tb: EdgeTables, p: nat): int
    requires p < |tb.old2IEdge| && tb.old2IEdge[p] < |tb.uIEdges| && |tb.toOld| == |tb.uIEdges|
  {
    var u := tb.old2IEdge[p];
    var L := tb.toOld[u];
    if tb.uIEdges[u] == NO_FACE || |L| < 2 then NO_ID
    else if |L| == 2 then (if p == L[0] then L[1] else L[0])
    else -(|NmTable(tb.uIEdges, tb.toOld, u)| + |Occurrences(tb.old2IEdge, u, p)| + 1)
  }

  /** A boundary edge (one occurrence) leaves its slot NO_ID. */
  lemma BoundarySlot(tb: EdgeTables, triangles: seq<Id3>, u: nat)
    requires WellFormed(tb, triangles) && u < |tb.uIEdges| && |tb.toOld[u]| == 1
    ensures tb.toOld[u][0] < 3 * |triangles|
    ensures ExpectedSlot(tb, tb.toOld[u][0]) == NO_ID
  {
    OccurrencesAre(tb.old2IEdge, u, |tb.old2IEdge|);
    assert tb.toOld[u][0] in tb.toOld[u];
  }

  /**
   * A regular edge (two occurrences (e1, lf1), (e2, lf2)) makes the two
   * slots point at each other: slot (e1, lf1) holds 3 * e2 + lf2 and slot
   * (e2, lf2) holds 3 * e1 + lf1.
   */
  lemma RegularSlotsMutual(tb: EdgeTables, triangles: seq<Id3>, u: nat)
    requires WellFormed(tb, triangles) && u < |tb.uIEdges| && |tb.toOld[u]| == 2
    requires tb.uIEdges[u] != NO_FACE
    ensures var L := tb.toOld[u];
      && L[0] < 3 * |triangles| && L[1] < 3 * |triangles| && L[0] != L[1]
      && ExpectedSlot(tb, L[0]) == 3 * (L[1] / 3) + L[1] % 3
      && ExpectedSlot(tb, L[1]) == 3 * (L[0] / 3) + L[0] % 3
  {
    var L := tb.toOld[u];
    OccurrencesAre(tb.old2IEdge, u, |tb.old2IEdge|);
    assert L[0] in L && L[1] in L;
  }

  /** Entry |NmTable(u)| + j of the final side table is the list of the others of occurrence j of u. */
  lemma NmTableEntry(uIEdges: seq<Id2>, toOld: seq<seq<nat>>, u: nat, j: nat)
    requires u < |uIEdges| && |toOld| == |uIEdges|
    requires uIEdges[u] != NO_FACE && |toOld[u]| > 2 && j < |toOld[u]|
    ensures |NmTable(uIEdges, toOld, u)| + j < |NmTable(uIEdges, toOld, |uIEdges|)|
    ensures NmTable(uIEdges, toOld, |uIEdges|)[|NmTable(uIEdges, toOld, u)| + j] == Others(toOld[u], toOld[u][j])
  {
    var before := NmTable(uIEdges, toOld, u);
    var rows := NmRows(toOld[u]);
    var upTo := NmTable(uIEdges, toOld, u + 1);
    assert upTo == before + rows;
    assert upTo[|before| + j] == rows[j];
    NmTablePrefix(uIEdges, toOld, u + 1, |uIEdges|);
  }

  /** In a duplicate-free occurrence list, the others of occurrence j are the list without index j. */
  lemma NonManifoldEntry(uIEdges: seq<Id2>, toOld: seq<seq<nat>>, u: nat, j: nat)
    requires u < |uIEdges| && |toOld| == |uIEdges|
    requires uIEdges[u] != NO_FACE && |toOld[u]| > 2 && j < |toOld[u]|
    requires StrictlyIncreasing(toOld[u])
    ensures |NmTable(uIEdges, toOld, u)| + j < |NmTable(uIEdges, toOld, |uIEdges|)|
    ensures NmTable(uIEdges, toOld, |uIEdges|)[|NmTable(uIEdges, toOld, u)| + j]
            == toOld[u][..j] + toOld[u][j + 1..]
  {
    NmTableEntry(uIEdges, toOld, u, j);
    OthersSkipsOne(toOld[u], j);
  }

  /**
   * A non-manifold edge u with k > 2 occurrences: the slot of occurrence j
   * holds -(pos + 1) with pos == |NmTable(u)| + j, and the occurrence list
   * is duplicate-free, so that NonManifoldEntry says entry pos lists the
   * other k - 1 occurrences in increasing order.
   */
  lemma NonManifoldSlot(tb: EdgeTables, triangles: seq<Id3>, u: nat, j: nat)
    requires WellFormed(tb, triangles) && u < |tb.uIEdges| && |tb.toOld[u]| > 2
    requires tb.uIEdges[u] != NO_FACE && j < |tb.toOld[u]|
    ensures tb.toOld[u][j] < 3 * |triangles|
    ensures ExpectedSlot(tb, tb.toOld[u][j]) == -(|NmTable(tb.uIEdges, tb.toOld, u)| + j + 1)
    ensures StrictlyIncreasing(tb.toOld[u])
  {
    var L := tb.toOld[u];
    var o := tb.old2IEdge;
    OccurrencesAre(o, u, |o|);
    RankOfOccurrence(o, u, |o|, j);
    assert L[j] in L;
    assert o[L[j]] == u;
  }

  /** The builder accepts the tables exactly when no face is a pair with one NO_ID endpoint. */
  lemma AcceptedIffNoBadFace(tb: EdgeTables, triangles: seq<Id3>)
    requires WellFormed(tb, triangles)
    ensures (forall u :: 0 <= u < |tb.uIEdges| ==> !BadEdge(tb.uIEdges[u]))
        <==> (forall p :: 0 <= p < 3 * |triangles| ==> !BadEdge(Face(triangles, p)))
  {
    if forall u :: 0 <= u < |tb.uIEdges| ==> !BadEdge(tb.uIEdges[u]) {
      forall p | 0 <= p < 3 * |triangles| ensures !BadEdge(Face(triangles, p)) {
        assert Face(triangles, p) == tb.uIEdges[tb.old2IEdge[p]];
      }
    }
    if forall p :: 0 <= p < 3 * |triangles| ==> !BadEdge(Face(triangles, p)) {
      forall u | 0 <= u < |tb.uIEdges| ensures !BadEdge(tb.uIEdges[u]) {
        var faces := AllFaces(triangles);
        var p :| 0 <= p < |faces| && faces[p] == tb.uIEdges[u];
        assert Face(triangles, p) == tb.uIEdges[u];
      }
    }
  }

  /** There are unique edges exactly when there are triangles. */
  lemma NoUniqueEdgesIffNoTriangles(tb: EdgeTables, triangles: seq<Id3>)
    requires WellFormed(tb, triangles)
    ensures |tb.uIEdges| == 0 <==> |triangles| == 0
  {
    if |triangles| > 0 {
      assert tb.old2IEdge[0] < |tb.uIEdges|;
    }
    if |tb.uIEdges| > 0 {
      assert tb.uIEdges[0] in AllFaces(triangles);
    }
  }

  /** The neighbour slots of an n-by-3 array, flattened by face position. */
  ghost function Slots(nb: array2<int>): (s: seq<int>)
    requires nb.Length1 == 3
    reads nb
    ensures |s| == 3 * nb.Length0
  {
    seq(3 * nb.Length0, p requires 0 <= p < 3 * nb.Length0 reads nb => nb[p / 3, p % 3])
  }

  /** Slot (p / 3, p % 3) is slot (t, lf) exactly when p == 3 * t + lf. */
  lemma SlotIndex(t: nat, lf: nat, p: nat)
    requires lf < 3
    ensures (p / 3 == t && p % 3 == lf) <==> p == 3 * t + lf
  {
  }

  /** triangle_neighbors[q / 3][q % 3] = v. */
  method SetSlot(nb: array2<int>, q: nat, v: int)
    requires nb.Length1 == 3 && q < 3 * nb.Length0
    modifies nb
    ensures Slots(nb) == old(Slots(nb))[q := v]
  {
    nb[q / 3, q % 3] := v;
    forall p | 0 <= p < 3 * nb.Length0
      ensures Slots(nb)[p] == old(Slots(nb))[q := v][p]
    {
      SlotIndex(q / 3, q % 3, p);
    }
  }

  /** Lines 97-105: the sorted vertex pair of every local edge, in face-position order. */
  method BuildFaces(triangles: seq<Id3>) returns (faces: seq<Id2>)
    ensures faces == AllFaces(triangles)
  {
    faces := [];
    var i := 0;
    while i < |triangles|
      invariant i <= |triangles|
      invariant |faces| == 3 * i
      invariant forall p :: 0 <= p < 3 * i ==> faces[p] == Face(triangles, p)
    {
      var lf := 0;
      while lf < 3
        invariant lf <= 3
        invariant |faces| == 3 * i + lf
        invariant forall p :: 0 <= p < 3 * i + lf ==> faces[p] == Face(triangles, p)
      {
        var face := Sorted(Corner(triangles[i], lf), Corner(triangles[i], (lf + 1) % 3));
        FaceAt(triangles, i, lf);
        faces := faces + [face];
        lf := lf + 1;
      }
      i := i + 1;
    }
  }

  /** Lines 111-117: append every face position to the occurrence list of its unique edge. */
  method BuildEdgeToOld(old2IEdge: seq<nat>, nbUniques: nat, n: nat) returns (toOld: seq<seq<nat>>)
    requires |old2IEdge| == 3 * n
    requires forall p :: 0 <= p < |old2IEdge| ==> old2IEdge[p] < nbUniques
    ensures |toOld| == nbUniques
    ensures forall u :: 0 <= u < nbUniques ==> toOld[u] == Occurrences(old2IEdge, u, 3 * n)
  {
    toOld := seq(nbUniques, _ => []);
    var i := 0;
    while i < n
      invariant i <= n
      invariant |toOld| == nbUniques
      invariant forall u :: 0 <= u < nbUniques ==> toOld[u] == Occurrences(old2IEdge, u, 3 * i)
    {
      var lf := 0;
      while lf < 3
        invariant lf <= 3
        invariant |toOld| == nbUniques
        invariant forall u :: 0 <= u < nbUniques ==> toOld[u] == Occurrences(old2IEdge, u, 3 * i + lf)
      {
        var facePos := 3 * i + lf;
        var u := old2IEdge[facePos];
        toOld := toOld[u := toOld[u] + [facePos]];
        lf := lf + 1;
      }
      i := i + 1;
    }
  }

  /** The inner loop of lines 141-145: the occurrences of L other than x, in order. */
  method CollectOthers(L: seq<nat>, x: nat) returns (neighs: seq<nat>)
    ensures neighs == Others(L, x)
  {
    neighs := [];
    var k := 0;
    while k < |L|
      invariant k <= |L|
      invariant neighs == Others(L[..k], x)
    {
      assert L[..k + 1][..k] == L[..k];
      if L[k] != x {
        neighs := neighs + [L[k]];
      }
      k := k + 1;
    }
    assert L[..|L|] == L;
  }

  /**
   * Lines 137-150: for every occurrence j of a non-manifold edge, append
   * the list of the other occurrences to the side table and store
   * -(pos + 1) in the occurrence's slot, pos being that entry's index.
   */
  method SetNonManifold(nb: array2<int>, L: seq<nat>, nm0: seq<seq<nat>>) returns (nm: seq<seq<nat>>)
    requires nb.Length1 == 3
    requires StrictlyIncreasing(L)
    requires forall j :: 0 <= j < |L| ==> L[j] < 3 * nb.Length0
    modifies nb
    ensures nm == nm0 + NmRows(L)
    ensures forall j :: 0 <= j < |L| ==> Slots(nb)[L[j]] == -(|nm0| + j + 1)
    ensures forall p :: 0 <= p < 3 * nb.Length0 && p !in L ==> Slots(nb)[p] == old(Slots(nb))[p]
  {
    nm := nm0;
    var j := 0;
    while j < |L|
      invariant j <= |L|
      invariant nm == nm0 + NmRows(L)[..j]
      invariant forall jj :: 0 <= jj < j ==> Slots(nb)[L[jj]] == -(|nm0| + jj + 1)
      invariant forall p :: 0 <= p < 3 * nb.Length0 && p !in L[..j] ==> Slots(nb)[p] == old(Slots(nb))[p]
    {
      var neighs := CollectOthers(L, L[j]);
      var pos := |nm|;
      nm := nm + [neighs];
      SetSlot(nb, L[j], -(pos + 1));
      assert L[..j + 1] == L[..j] + [L[j]];
      j := j + 1;
    }
    assert NmRows(L)[..|L|] == NmRows(L);
  }

  /** The parts of WellFormed that the classification loop uses. */
  ghost predicate Classifiable(tb: EdgeTables, n: nat) {
    && |tb.old2IEdge| == 3 * n
    && |tb.toOld| == |tb.uIEdges|
    && (forall p :: 0 <= p < |tb.old2IEdge| ==> tb.old2IEdge[p] < |tb.uIEdges|)
    && (forall u :: 0 <= u < |tb.toOld| ==> tb.toOld[u] == Occurrences(tb.old2IEdge, u, |tb.old2IEdge|))
  }

  /** What a classification step leaves in the slots: ExpectedSlot for the occurrences of i, the rest as before. */
  ghost predicate SlotsAfter(nb: array2<int>, tb: EdgeTables, i: nat, before: seq<int>)
    requires nb.Length1 == 3 && Classifiable(tb, nb.Length0) && |before| == 3 * nb.Length0
    reads nb
  {
    forall p :: 0 <= p < 3 * nb.Length0 ==>
      Slots(nb)[p] == if tb.old2IEdge[p] == i then ExpectedSlot(tb, p) else before[p]
  }

  /** Lines 125-128: a boundary edge (one occurrence) sets its slot to NO_ID. */
  method ClassifyBoundary(nb: array2<int>, tb: EdgeTables, i: nat)
    requires nb.Length1 == 3 && Classifiable(tb, nb.Length0)
    requires i < |tb.uIEdges| && tb.uIEdges[i] != NO_FACE && |tb.toOld[i]| == 1
    modifies nb
    ensures SlotsAfter(nb, tb, i, old(Slots(nb)))
  {
    var n := nb.Length0;
    var o := tb.old2IEdge;
    var L := tb.toOld[i];
    OccurrencesAre(o, i, 3 * n);
    var eltId := L[0] / 3;
    var lf := L[0] % 3;
    assert L[0] in L;
    SetSlot(nb, 3 * eltId + lf, NO_ID);
    forall p | 0 <= p < 3 * n
      ensures Slots(nb)[p] == if o[p] == i then ExpectedSlot(tb, p) else old(Slots(nb))[p]
    {
      if o[p] == i {
        assert p in L;
      }
    }
  }

  /** Lines 129-135: a regular edge (two occurrences) makes the two slots point at each other. */
  method ClassifyRegular(nb: array2<int>, tb: EdgeTables, i: nat)
    requires nb.Length1 == 3 && Classifiable(tb, nb.Length0)
    requires i < |tb.uIEdges| && tb.uIEdges[i] != NO_FACE && |tb.toOld[i]| == 2
    modifies nb
    ensures SlotsAfter(nb, tb, i, old(Slots(nb)))
  {
    var n := nb.Length0;
    var o := tb.old2IEdge;
    var L := tb.toOld[i];
    OccurrencesAre(o, i, 3 * n);
    var e1 := L[0] / 3;
    var lf1 := L[0] % 3;
    var e2 := L[1] / 3;
    var lf2 := L[1] % 3;
    assert L[0] in L && L[1] in L;
    SetSlot(nb, 3 * e1 + lf1, 3 * e2 + lf2);
    SetSlot(nb, 3 * e2 + lf2, 3 * e1 + lf1);
    forall p | 0 <= p < 3 * n
      ensures Slots(nb)[p] == if o[p] == i then ExpectedSlot(tb, p) else old(Slots(nb))[p]
    {
      if o[p] == i {
        assert p in L;
        assert p == L[0] || p == L[1];
      }
    }
  }

  /** Lines 136-151: a non-manifold edge (more than two occurrences) fills side-table entries. */
  method ClassifyNonManifold(nb: array2<int>, tb: EdgeTables, i: nat, nm0: seq<seq<nat>>) returns (nm: seq<seq<nat>>)
    requires nb.Length1 == 3 && Classifiable(tb, nb.Length0)
    requires i < |tb.uIEdges| && tb.uIEdges[i] != NO_FACE && |tb.toOld[i]| > 2
    requires nm0 == NmTable(tb.uIEdges, tb.toOld, i)
    modifies nb
    ensures nm == NmTable(tb.uIEdges, tb.toOld, i + 1)
    ensures SlotsAfter(nb, tb, i, old(Slots(nb)))
  {
    var n := nb.Length0;
    var o := tb.old2IEdge;
    var L := tb.toOld[i];
    OccurrencesAre(o, i, 3 * n);
    assert forall j :: 0 <= j < |L| ==> L[j] in L;
    nm := SetNonManifold(nb, L, nm0);
    forall p | 0 <= p < 3 * n
      ensures Slots(nb)[p] == if o[p] == i then ExpectedSlot(tb, p) else old(Slots(nb))[p]
    {
      if o[p] == i {
        assert p in L;
        OccurrenceRank(o, i, 3 * n, p);
      }
    }
  }

  /**
   * Lines 125-151: set the slots of the occurrences of one accepted unique
   * edge i (neither the NO_ID pair nor refused), and extend the side table.
   */
  method ClassifyEdge(nb: array2<int>, tb: EdgeTables, i: nat, nm0: seq<seq<nat>>) returns (nm: seq<seq<nat>>)
    requires nb.Length1 == 3 && Classifiable(tb, nb.Length0)
    requires i < |tb.uIEdges| && tb.uIEdges[i] != NO_FACE
    requires nm0 == NmTable(tb.uIEdges, tb.toOld, i)
    modifies nb
    ensures nm == NmTable(tb.uIEdges, tb.toOld, i + 1)
    ensures SlotsAfter(nb, tb, i, old(Slots(nb)))
  {
    var L := tb.toOld[i];
    nm := nm0;
    if |L| == 1 {
      ClassifyBoundary(nb, tb, i);
    } else if |L| == 2 {
      ClassifyRegular(nb, tb, i);
    } else if |L| > 2 {
      nm := ClassifyNonManifold(nb, tb, i, nm);
    } else {
      var o := tb.old2IEdge;
      OccurrencesAre(o, i, |o|);
      forall p | 0 <= p < |o| ensures o[p] != i {
        assert p !in L;
      }
    }
  }

  /** The slots after the unique edges before i are classified: ExpectedSlot for their occurrences, NO_ID elsewhere. */
  ghost predicate SlotsDone(s: seq<int>, tb: EdgeTables, n: nat, i: nat)
    requires Classifiable(tb, n)
  {
    |s| == 3 * n && forall p :: 0 <= p < 3 * n ==> s[p] == if tb.old2IEdge[p] < i then ExpectedSlot(tb, p) else NO_ID
  }

  /** Classifying edge i extends SlotsDone from i to i + 1. */
  lemma SlotsDoneStep(before: seq<int>, after: seq<int>, tb: EdgeTables, n: nat, i: nat)
    requires Classifiable(tb, n) && SlotsDone(before, tb, n, i) && |after| == 3 * n
    requires forall p :: 0 <= p < 3 * n ==> after[p] == if tb.old2IEdge[p] == i then ExpectedSlot(tb, p) else before[p]
    ensures SlotsDone(after, tb, n, i + 1)
  {
  }

  /** Skipping the NO_ID pair (edge i) extends SlotsDone from i to i + 1: its slots stay NO_ID. */
  lemma SlotsDoneSkip(s: seq<int>, tb: EdgeTables, n: nat, i: nat)
    requires Classifiable(tb, n) && SlotsDone(s, tb, n, i)
    requires i < |tb.uIEdges| && tb.uIEdges[i] == NO_FACE
    ensures SlotsDone(s, tb, n, i + 1)
  {
  }

  /**
   * One pass of the loop of lines 119-152, for unique edge i: the NO_ID
   * pair is skipped, a refused edge stops the builder, any other edge is
   * classified. SlotsDone and the side table advance from i to i + 1.
   */
  method ClassifyStep(nb: array2<int>, tb: EdgeTables, i: nat, nm0: seq<seq<nat>>) returns (accepted: bool, nm: seq<seq<nat>>)
    requires nb.Length1 == 3 && Classifiable(tb, nb.Length0)
    requires i < |tb.uIEdges|
    requires nm0 == NmTable(tb.uIEdges, tb.toOld, i)
    requires SlotsDone(Slots(nb), tb, nb.Length0, i)
    modifies nb
    ensures accepted <==> !BadEdge(tb.uIEdges[i])
    ensures accepted ==> nm == NmTable(tb.uIEdges, tb.toOld, i + 1)
    ensures accepted ==> SlotsDone(Slots(nb), tb, nb.Length0, i + 1)
  {
    var e := tb.uIEdges[i];
    nm := nm0;
    if e == NO_FACE {
      SlotsDoneSkip(Slots(nb), tb, nb.Length0, i);
      return true, nm;
    }
    if e.v0 == NO_ID {
      return false, nm;
    }
    if e.v1 == NO_ID {
      return false, nm;
    }
    ghost var before := Slots(nb);
    nm := ClassifyEdge(nb, tb, i, nm0);
    SlotsDoneStep(before, Slots(nb), tb, nb.Length0, i);
    accepted := true;
  }

  /** Lines 119-152: classify every unique edge in turn; stop with false at a refused one. */
  method ClassifyAll(nb: array2<int>, tb: EdgeTables) returns (ok: bool, nm: seq<seq<nat>>)
    requires nb.Length1 == 3 && Classifiable(tb, nb.Length0)
    requires forall p :: 0 <= p < 3 * nb.Length0 ==> Slots(nb)[p] == NO_ID
    modifies nb
    ensures ok <==> forall u :: 0 <= u < |tb.uIEdges| ==> !BadEdge(tb.uIEdges[u])
    ensures ok ==> nm == NmTable(tb.uIEdges, tb.toOld, |tb.uIEdges|)
    ensures ok ==> forall p :: 0 <= p < 3 * nb.Length0 ==> Slots(nb)[p] == ExpectedSlot(tb, p)
  {
    var n := nb.Length0;
    nm := [];
    var i := 0;
    while i < |tb.uIEdges|
      invariant i <= |tb.uIEdges|
      invariant forall u :: 0 <= u < i ==> !BadEdge(tb.uIEdges[u])
      invariant nm == NmTable(tb.uIEdges, tb.toOld, i)
      invariant SlotsDone(Slots(nb), tb, n, i)
    {
      var accepted;
      accepted, nm := ClassifyStep(nb, tb, i, nm);
      if !accepted {
        return false, nm;
      }
      i := i + 1;
    }
    ok := true;
    forall p | 0 <= p < 3 * n
      ensures Slots(nb)[p] == ExpectedSlot(tb, p)
    {
      assert tb.old2IEdge[p] < i;
    }
  }

  /** Slot (t, lf) is flattened slot 3 * t + lf. */
  lemma SlotAt(nb: array2<int>, t: nat, lf: nat)
    requires nb.Length1 == 3 && t < nb.Length0 && lf < 3
    ensures 3 * t + lf < |Slots(nb)| && Slots(nb)[3 * t + lf] == nb[t, lf]
  {
    SlotIndex(t, lf, 3 * t + lf);
  }

  /** Lines 97-117: the unique-edge tables of `triangles`. */
  method BuildTables(triangles: seq<Id3>) returns (tb: EdgeTables)
    ensures WellFormed(tb, triangles) && Classifiable(tb, |triangles|)
  {
    var n := |triangles|;
    var faces := BuildFaces(triangles);
    var nbUniques, uIEdges, old2IEdge := SortUniqueWithPerm(faces);
    var toOld := BuildEdgeToOld(old2IEdge, nbUniques, n);
    tb := EdgeTables(uIEdges, old2IEdge, toOld);
  }

  /**
   * compute_triangle_adjacencies. On return the unique-edge tables are
   * always complete; the result is false exactly when some unique edge has
   * one NO_ID endpoint (the pair of two NO_IDs is skipped). When it is
   * true, the side table is NmTable(...) and every slot holds ExpectedSlot.
   */
  method ComputeTriangleAdjacencies(triangles: seq<Id3>)
    returns (ok: bool, neighbors: array2<int>, nm: seq<seq<nat>>, tb: EdgeTables)
    ensures fresh(neighbors)
    ensures neighbors.Length0 == |triangles| && neighbors.Length1 == 3
    ensures WellFormed(tb, triangles)
    ensures ok <==> forall u :: 0 <= u < |tb.uIEdges| ==> !BadEdge(tb.uIEdges[u])
    ensures ok ==> nm == NmTable(tb.uIEdges, tb.toOld, |tb.uIEdges|)
    ensures ok ==> forall t, lf :: 0 <= t < |triangles| && 0 <= lf < 3 ==>
                     neighbors[t, lf] == ExpectedSlot(tb, 3 * t + lf)
  {
    var n := |triangles|;
    neighbors := new int[n, 3]((_, _) => NO_ID);
    tb := BuildTables(triangles);
    ok, nm := ClassifyAll(neighbors, tb);
    if ok {
      forall t, lf | 0 <= t < n && 0 <= lf < 3
        ensures neighbors[t, lf] == ExpectedSlot(tb, 3 * t + lf)
      {
        SlotAt(neighbors, t, lf);
      }
    }
  }
}
