/**
 * The open-set entry of the shortest-path search and its ordering. The standard
 * binary heap pops its greatest element, so the cost comparison is reversed: the
 * cheapest entry is the greatest.
 */
module AStar {
  import opened Points
  import opened Wrappers

  datatype Ordering = Less | Equal | Greater {
    function Reverse(): Ordering {
      match this
      case Less => Greater
      case Equal => Equal
      case Greater => Less
    }

    /** `then_with`: this ordering unless it is `Equal`, in which case the tie-breaker. */
    function ThenWith(tieBreak: Ordering): Ordering {
      if this == Equal then tieBreak else this
    }
  }

  /** `Ord::cmp` on integers. */
  function CompareInt(a: int, b: int): (r: Ordering)
    ensures r == Less <==> a < b
    ensures r == Equal <==> a == b
    ensures r == Greater <==> a > b
  {
    if a < b then Less else if a == b then Equal else Greater
  }

  /** What the heap needs of `Point`'s own ordering: a total order consistent with equality. */
  ghost predicate IsTotalOrder(cmp: (Point, Point) -> Ordering) {
    && (forall p, q :: cmp(p, q) == Equal <==> p == q)
    && (forall p, q :: cmp(q, p) == cmp(p, q).Reverse())
    && (forall p, q, s :: cmp(p, q) == Less && cmp(q, s) == Less ==> cmp(p, s) == Less)
  }

  /** One order that qualifies: x first, then y (the order a derived `Ord` on `{x, y}` gives). */
  function LexicographicCmp(p: Point, q: Point): Ordering {
    CompareInt(p.x, q.x).ThenWith(CompareInt(p.y, q.y))
  }

  lemma LexicographicIsTotalOrder()
    ensures IsTotalOrder(LexicographicCmp)
  {
  }

  datatype AStarNode = AStarNode(cost: nat, position: Point)

  /** `Ord::cmp`: the reversed cost comparison, ties broken by position. */
  function Cmp(a: AStarNode, b: AStarNode, cmp: (Point, Point) -> Ordering): (r: Ordering)
    ensures a.cost < b.cost ==> r == Greater
    ensures a.cost > b.cost ==> r == Less
    ensures a.cost == b.cost ==> r == cmp(a.position, b.position)
  {
    CompareInt(b.cost, a.cost).ThenWith(cmp(a.position, b.position))
  }

  /** `PartialOrd::partial_cmp` always agrees with `Ord::cmp`. */
  function PartialCmp(a: AStarNode, b: AStarNode, cmp: (Point, Point) -> Ordering): (r: Option<Ordering>)
    ensures r.Some?
  {
    Some(Cmp(a, b, cmp))
  }

  lemma PartialCmpAgrees(a: AStarNode, b: AStarNode, cmp: (Point, Point) -> Ordering)
    ensures PartialCmp(a, b, cmp) == Some(Cmp(a, b, cmp))
  {
  }

  /** `cmp` is `Equal` exactly when the derived equality holds. */
  lemma CmpEqualIsEquality(a: AStarNode, b: AStarNode, cmp: (Point, Point) -> Ordering)
    requires IsTotalOrder(cmp)
    ensures Cmp(a, b, cmp) == Equal <==> a == b
  {
  }

  lemma CmpAntisymmetric(a: AStarNode, b: AStarNode, cmp: (Point, Point) -> Ordering)
    requires IsTotalOrder(cmp)
    ensures Cmp(b, a, cmp) == Cmp(a, b, cmp).Reverse()
  {
  }

  lemma CmpTransitive(a: AStarNode, b: AStarNode, c: AStarNode, cmp: (Point, Point) -> Ordering)
    requires IsTotalOrder(cmp)
    requires Cmp(a, b, cmp) == Less && Cmp(b, c, cmp) == Less
    ensures Cmp(a, c, cmp) == Less
  {
  }

  /** The greatest entry under this order is a cheapest one: the max-heap pops cheapest first. */
  lemma GreatestIsCheapest(top: AStarNode, others: seq<AStarNode>, cmp: (Point, Point) -> Ordering)
    requires forall i :: 0 <= i < |others| ==> Cmp(others[i], top, cmp) != Greater
    ensures forall i :: 0 <= i < |others| ==> top.cost <= others[i].cost
  {
  }
}
