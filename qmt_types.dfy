/**
 * Basic identifiers and vertex pairs shared by the cross-field core.
 *
 * Vertex ids are 32-bit unsigned integers; the largest of them is the
 * sentinel NO_ID ("no vertex", "no neighbour").
 */
module QmtTypes {

  /** The sentinel id: the largest 32-bit unsigned value. */
  const NO_ID: nat := 0xFFFF_FFFF

  /** A vertex id (32-bit unsigned). */
  type Id = x: nat | x <= NO_ID

  /** A pair of vertex ids (an edge, a line segment). */
  datatype Id2 = Id2(v0: Id, v1: Id)

  /** A triple of vertex ids (a triangle). */
  datatype Id3 = Id3(v0: Id, v1: Id, v2: Id)

  /** The pair that marks an edge made of two sentinels. */
  const NO_FACE: Id2 := Id2(NO_ID, NO_ID)

  /** Local vertex k of a triangle. */
  function Corner(t: Id3, k: nat): Id
    requires k < 3
  {
    if k == 0 then t.v0 else if k == 1 then t.v1 else t.v2
  }

  /** The pair {v1, v2} with its smaller id first. */
  function Sorted(v1: Id, v2: Id): (r: Id2)
    ensures r.v0 <= r.v1
    ensures (r.v0 == v1 && r.v1 == v2) || (r.v0 == v2 && r.v1 == v1)
  {
    if v1 < v2 then Id2(v1, v2) else Id2(v2, v1)
  }

  /** Lexicographic order on pairs (the order of std::array<id,2>). */
  predicate Less(a: Id2, b: Id2) {
    a.v0 < b.v0 || (a.v0 == b.v0 && a.v1 < b.v1)
  }

  /** A sequence of pairs in strictly increasing lexicographic order: sorted and duplicate-free. */
  ghost predicate StrictlySorted(s: seq<Id2>) {
    forall a, b :: 0 <= a < b < |s| ==> Less(s[a], s[b])
  }

  /** A sequence of naturals in strictly increasing order. */
  ghost predicate StrictlyIncreasing(s: seq<nat>) {
    forall a, b :: 0 <= a < b < |s| ==> s[a] < s[b]
  }

  /** Real absolute value (std::abs on double). */
  function Abs(x: real): (r: real)
    ensures r >= 0.0 && (r == x || r == -x)
  {
    if x < 0.0 then -x else x
  }

  /** The tolerance used to detect zero (1e-14). */
  const EPS: real := 0.00000000000001

  /**
   * Real quotient. A quotient by zero has no real value (IEEE arithmetic
   * gives an infinity or NaN there); the model uses 0 for it.
   */
  function Quot(a: real, b: real): (r: real)
    ensures b != 0.0 ==> r * b == a
  {
    if b == 0.0 then 0.0 else a / b
  }

  /** The result kind of an operation that may fail. */
  datatype Option<T> = None | Some(value: T)
}
