/**
 * Looking a point up in the linear quadtree: the walk from the deepest level up, with one exact
 * lookup per level, finds what a scan of all nodes for the deepest one over the point would.
 */
module Quadtree {
  import opened Bytes
  import opened Bits
  import opened NodeKeys
  import opened Reals
  import opened Records
  import opened Sorting
  import Reader

  const MAX_SIDE_CELLS := 0x1_0000_0000

  datatype Area = Area(minX: real, minY: real, maxX: real, maxY: real) {
    function Width(): real { maxX - minX }
    function Height(): real { maxY - minY }
    predicate Contains(x: real, y: real) { minX <= x <= maxX && minY <= y <= maxY }
  }

  function Larger(a: real, b: real): real { if a < b then b else a }

  function Ceil(r: real): int { -((-r).Floor) }

  function NextPow2(n: nat): (p: nat)
    requires n >= 1
    ensures p >= n
    ensures exists k :: p == Pow2(k)
  {
    assert n <= Pow2(n) by { PowAbove(n); }
    Pow2(LeastPower(n, 0))
  }

  lemma {:induction false} PowAbove(n: nat)
    ensures n < Pow2(n)
  {
    if n > 0 {
      PowAbove(n - 1);
    }
  }

  /** The least exponent from `k` on whose power reaches `n`. */
  function LeastPower(n: nat, k: nat): (e: nat)
    requires n <= Pow2(if k <= n then n else k)
    ensures e >= k && n <= Pow2(e)
    ensures forall j :: k <= j < e ==> Pow2(j) < n
    decreases if k <= n then n - k else 0
  {
    if n <= Pow2(k) then k else LeastPower(n, k + 1)
  }

  /** The side of the square the partition builder split, from the header alone. */
  function SkeletonSide(bounds: Area, res: real): real {
    if res <= 0.0 then Larger(bounds.Width(), bounds.Height())
    else
      var extent := Larger(Larger(bounds.Width(), bounds.Height()), 0.0);
      var whole := Ceil(extent / res);
      var cells: nat := if whole < 1 then 1 else whole;
      if cells >= MAX_SIDE_CELLS then MAX_SIDE_CELLS as real * res
      else NextPow2(cells) as real * res
  }

  lemma CeilBounds(r: real)
    ensures Ceil(r) as real >= r > Ceil(r) as real - 1.0
  {
  }

  /** The square holds the whole map exactly when the map has no more cells than the bound. */
  lemma SideHoldsMap(bounds: Area, res: real)
    requires res > 0.0
    ensures var extent := Larger(Larger(bounds.Width(), bounds.Height()), 0.0);
      SkeletonSide(bounds, res) > 0.0
      && (extent <= SkeletonSide(bounds, res) <==> extent <= MAX_SIDE_CELLS as real * res)
  {
    hide NextPow2, Ceil;
    var extent := Larger(Larger(bounds.Width(), bounds.Height()), 0.0);
    var whole := Ceil(extent / res);
    var cells: nat := if whole < 1 then 1 else whole;
    CeilBounds(extent / res);
    if cells < MAX_SIDE_CELLS {
      Scaled(cells as real, res, extent);
      Scaled(NextPow2(cells) as real, res, extent);
      Scaled(MAX_SIDE_CELLS as real, res, extent);
      assert NextPow2(cells) as real * res > 0.0;
    }
  }

  lemma CeilOrdered(a: real, b: real)
    ensures a <= b ==> Ceil(a) <= Ceil(b)
  {
  }

  /** The side of a map whose longer axis is `cells` cells of the resolution. */
  lemma SideInCells(bounds: Area, res: real, width: nat, height: nat)
    requires res > 0.0 && bounds.Width() > 0.0 && bounds.Height() > 0.0
    requires width == Ceil(bounds.Width() / res) && height == Ceil(bounds.Height() / res)
    requires width < MAX_SIDE_CELLS && height < MAX_SIDE_CELLS
    ensures width > 0 && height > 0
    ensures SkeletonSide(bounds, res) == NextPow2(if width < height then height else width) as real * res
  {
    hide NextPow2, Ceil;
    var w, h := bounds.Width(), bounds.Height();
    InCells(w, h, res);
    InCells(h, w, res);
  }

  lemma InCells(w: real, h: real, res: real)
    requires w > 0.0 && h > 0.0 && res > 0.0
    ensures Ceil(w / res) > 0
    ensures w <= h ==> Ceil(w / res) <= Ceil(h / res)
  {
    hide Ceil;
    var a, b := w / res, h / res;
    assert a * res == w && b * res == h;
    CeilBounds(a);
    CeilOrdered(a, b);
    if w <= h && b < a { StrictScale(b, a, res); }
    if a <= 0.0 { RealScale(a, 0.0, res); }
  }

  // ---------------------------------------------------------------- exact lookup

  /** The node with the given key, by a scan. */
  function Find(nodes: seq<QNode>, key: nat): (r: Option<QNode>)
    ensures r.Some? ==> r.value in nodes && r.value.morton == key
    ensures r.None? ==> forall n :: n in nodes ==> n.morton != key
  {
    if nodes == [] then None
    else if nodes[0].morton == key then Some(nodes[0])
    else Find(nodes[1..], key)
  }

  lemma {:induction false} FindAt(nodes: seq<QNode>, i: nat)
    requires Strict(nodes, Reader.Morton) && i < |nodes|
    ensures Find(nodes, nodes[i].morton) == Some(nodes[i])
  {
    if i > 0 {
      assert Reader.Morton(nodes[0]) < Reader.Morton(nodes[i]);
      FindAt(nodes[1..], i - 1);
    }
  }

  /** `get`: the binary search over a skeleton, which is strictly sorted. */
  method Get(nodes: seq<QNode>, key: nat) returns (r: Option<QNode>)
    requires Strict(nodes, Reader.Morton)
    ensures r == Find(nodes, key)
  {
    var low, high := 0, |nodes|;
    while low < high
      invariant 0 <= low <= high <= |nodes|
      invariant forall i :: 0 <= i < low ==> nodes[i].morton < key
      invariant forall i :: high <= i < |nodes| ==> nodes[i].morton > key
    {
      var mid := (low + high) / 2;
      if nodes[mid].morton == key {
        FindAt(nodes, mid);
        return Some(nodes[mid]);
      } else if nodes[mid].morton < key {
        forall i | 0 <= i <= mid ensures nodes[i].morton < key {
          assert i < mid ==> Reader.Morton(nodes[i]) < Reader.Morton(nodes[mid]);
        }
        low := mid + 1;
      } else {
        forall i | mid <= i < |nodes| ensures nodes[i].morton > key {
          assert mid < i ==> Reader.Morton(nodes[mid]) < Reader.Morton(nodes[i]);
        }
        high := mid;
      }
    }
    return None;
  }

  // -------------------------------------------------------------------- the point

  /** The cell of a fraction of the side at a depth: the last cell takes the far edge too. */
  function CellOf(u: real, depth: nat): (i: nat)
    requires 0.0 <= u <= 1.0
    ensures i < Pow2(depth)
  {
    assert u * Pow2(depth) as real >= 0.0;
    var i := (u * Pow2(depth) as real).Floor;
    if i < Pow2(depth) then i else Pow2(depth) - 1
  }

  /** The fraction lies in cell `i` of the depth: half open, and closed at the far edge. */
  predicate InCell(u: real, i: nat, depth: nat) {
    var at := u * Pow2(depth) as real;
    i as real <= at && (at < i as real + 1.0 || (i + 1 == Pow2(depth) && at == i as real + 1.0))
  }

  lemma OneCell(u: real, depth: nat, i: nat)
    requires 0.0 <= u <= 1.0
    ensures CellOf(u, depth) == i <==> i < Pow2(depth) && InCell(u, i, depth)
  {
    hide Pow2;
    var p := Pow2(depth);
    RealScale(u, 1.0, p as real);
    NotNegative(u, p as real);
    OnePlace(u * p as real, p, i);
  }

  lemma OnePlace(at: real, p: nat, i: nat)
    requires 0.0 <= at <= p as real && p > 0
    ensures (if at.Floor < p then at.Floor else p - 1) == i
       <==> i < p && i as real <= at && (at < i as real + 1.0 || (i + 1 == p && at == i as real + 1.0))
  {
  }

  /** The node is over the point: its key is a cell's and the point lies in that cell. */
  predicate Over(n: QNode, u: real, v: real) {
    var d, (x, y) := KeyDepth(n.morton), KeyXY(n.morton);
    Fits(x, y, d) && NodeKey(x, y, d) == n.morton && InCell(u, x, d) && InCell(v, y, d)
  }

  function KeyAt(u: real, v: real, depth: nat): nat
    requires 0.0 <= u <= 1.0 && 0.0 <= v <= 1.0
  {
    NodeKey(CellOf(u, depth), CellOf(v, depth), depth)
  }

  /** A node is over the point exactly when it carries the key computed for its depth. */
  lemma OverByKey(n: QNode, u: real, v: real, depth: nat)
    requires 0.0 <= u <= 1.0 && 0.0 <= v <= 1.0 && depth <= MAX_DEPTH
    ensures n.morton == KeyAt(u, v, depth) <==> Over(n, u, v) && KeyDepth(n.morton) == depth
  {
    hide NodeKey, KeyDepth, KeyXY, CellOf, InCell, Pow2;
    KeyRoundTrip(CellOf(u, depth), CellOf(v, depth), depth);
    OneCell(u, depth, KeyXY(n.morton).0);
    OneCell(v, depth, KeyXY(n.morton).1);
  }

  /** From the given depth upwards, the first level with a node for the point. */
  function Climb(nodes: seq<QNode>, u: real, v: real, depth: nat): Option<QNode>
    requires 0.0 <= u <= 1.0 && 0.0 <= v <= 1.0
  {
    match Find(nodes, KeyAt(u, v, depth))
    case Some(n) => Some(n)
    case None => if depth == 0 then None else Climb(nodes, u, v, depth - 1)
  }

  /** The node is over the point, no deeper than asked for, and none over it is deeper. */
  predicate Deepest(nodes: seq<QNode>, u: real, v: real, depth: nat, n: QNode) {
    && n in nodes && Over(n, u, v) && KeyDepth(n.morton) <= depth
    && forall o :: o in nodes && Over(o, u, v) && KeyDepth(o.morton) <= depth ==>
         KeyDepth(o.morton) <= KeyDepth(n.morton)
  }

  /** The walk finds the deepest node over the point, or there is none. */
  lemma {:induction false} ClimbFindsDeepest(nodes: seq<QNode>, u: real, v: real, depth: nat)
    requires 0.0 <= u <= 1.0 && 0.0 <= v <= 1.0 && depth <= MAX_DEPTH
    ensures var r := Climb(nodes, u, v, depth);
      if r.Some? then Deepest(nodes, u, v, depth, r.value)
      else forall n :: n in nodes ==> !(Over(n, u, v) && KeyDepth(n.morton) <= depth)
  {
    hide KeyDepth, Over, KeyAt;
    forall n | n in nodes
      ensures n.morton == KeyAt(u, v, depth) <==> Over(n, u, v) && KeyDepth(n.morton) == depth
    {
      OverByKey(n, u, v, depth);
    }
    if Find(nodes, KeyAt(u, v, depth)).None? && depth > 0 {
      ClimbFindsDeepest(nodes, u, v, depth - 1);
    }
  }

  /** A built skeleton has one node a key, so the deepest node over a point is the only one of
      its depth. */
  lemma DeepestIsUnique(nodes: seq<QNode>, u: real, v: real, depth: nat, a: QNode, b: QNode)
    requires Strict(nodes, Reader.Morton) && 0.0 <= u <= 1.0 && 0.0 <= v <= 1.0
    requires depth <= MAX_DEPTH
    requires Deepest(nodes, u, v, depth, a) && Deepest(nodes, u, v, depth, b)
    ensures a == b
  {
    hide KeyDepth, Over, KeyAt;
    OverByKey(a, u, v, KeyDepth(a.morton));
    OverByKey(b, u, v, KeyDepth(b.morton));
    var i :| 0 <= i < |nodes| && nodes[i] == a;
    var j :| 0 <= j < |nodes| && nodes[j] == b;
    FindAt(nodes, i);
    FindAt(nodes, j);
  }

  // ------------------------------------------------------------------------ locate

  /** The lookup of a point in metres: nothing outside the square, and the climb inside. */
  function Located(nodes: seq<QNode>, x: real, y: real, bounds: Area, res: real, maxDepth: nat): Option<QNode> {
    if nodes == [] || bounds.Width() <= 0.0 || bounds.Height() <= 0.0 then None
    else
      SidePositive(bounds, res);
      var side := SkeletonSide(bounds, res);
      var u, v := (x - bounds.minX) / side, (y - bounds.minY) / side;
      if 0.0 <= u <= 1.0 && 0.0 <= v <= 1.0 then Climb(nodes, u, v, Capped(maxDepth)) else None
  }

  /** `locate`. */
  method Locate(nodes: seq<QNode>, x: real, y: real, bounds: Area, res: real, maxDepth: nat)
    returns (r: Option<QNode>)
    requires Strict(nodes, Reader.Morton)
    ensures r == Located(nodes, x, y, bounds, res, maxDepth)
  {
    hide SkeletonSide, Climb, KeyAt;
    if |nodes| == 0 || bounds.Width() <= 0.0 || bounds.Height() <= 0.0 {
      return None;
    }
    SidePositive(bounds, res);
    var side := SkeletonSide(bounds, res);
    var u, v := (x - bounds.minX) / side, (y - bounds.minY) / side;
    if !(0.0 <= u <= 1.0) || !(0.0 <= v <= 1.0) {
      return None;
    }
    var depth: int := Capped(maxDepth);
    while depth >= 0
      invariant -1 <= depth <= Capped(maxDepth)
      invariant Climb(nodes, u, v, Capped(maxDepth))
             == if depth < 0 then None else Climb(nodes, u, v, depth)
    {
      ClimbStep(nodes, u, v, depth);
      r := Get(nodes, KeyAt(u, v, depth));
      if r.Some? {
        return r;
      }
      depth := depth - 1;
    }
    return None;
  }

  lemma ClimbStep(nodes: seq<QNode>, u: real, v: real, depth: nat)
    requires 0.0 <= u <= 1.0 && 0.0 <= v <= 1.0
    ensures Climb(nodes, u, v, depth)
         == match Find(nodes, KeyAt(u, v, depth))
            case Some(n) => Some(n)
            case None => if depth == 0 then None else Climb(nodes, u, v, depth - 1)
  {
  }

  lemma SidePositive(bounds: Area, res: real)
    requires bounds.Width() > 0.0
    ensures SkeletonSide(bounds, res) > 0.0
  {
    if res > 0.0 {
      SideHoldsMap(bounds, res);
    }
  }

  /** `QNode::bounds`. */
  function NodeBounds(n: QNode, bounds: Area, res: real): Area {
    var (x, y) := KeyXY(n.morton);
    var cell := SkeletonSide(bounds, res) / Pow2(KeyDepth(n.morton)) as real;
    Area(bounds.minX + x as real * cell, bounds.minY + y as real * cell,
         bounds.minX + (x as real + 1.0) * cell, bounds.minY + (y as real + 1.0) * cell)
  }

  /** In one axis: a bound on the place in the grid is a bound in metres. */
  lemma CellEdges(c: real, min: real, side: real, p: real, low: real, high: real)
    requires side > 0.0 && p > 0.0
    requires low <= (c - min) / side * p <= high
    ensures min + low * (side / p) <= c <= min + high * (side / p)
  {
    var cell := side / p;
    var t := (c - min) / side * p;
    assert cell > 0.0;
    assert t * cell == c - min by {
      assert (c - min) / side * side == c - min;
      assert p * cell == side;
    }
    RealScale(low, t, cell);
    RealScale(t, high, cell);
  }

  /** What the walk returns contains the point, in metres. */
  lemma OverContains(n: QNode, x: real, y: real, bounds: Area, res: real)
    requires SkeletonSide(bounds, res) > 0.0
    requires Over(n, (x - bounds.minX) / SkeletonSide(bounds, res),
                     (y - bounds.minY) / SkeletonSide(bounds, res))
    ensures NodeBounds(n, bounds, res).Contains(x, y)
  {
    hide SkeletonSide, KeyDepth, KeyXY, NodeKey, Fits, Pow2, InCell;
    var side, d := SkeletonSide(bounds, res), KeyDepth(n.morton);
    AxisContains(x, bounds.minX, side, d, KeyXY(n.morton).0);
    AxisContains(y, bounds.minY, side, d, KeyXY(n.morton).1);
  }

  lemma AxisContains(c: real, min: real, side: real, depth: nat, i: nat)
    requires side > 0.0 && InCell((c - min) / side, i, depth)
    ensures var cell := side / Pow2(depth) as real;
      min + i as real * cell <= c <= min + (i as real + 1.0) * cell
  {
    hide Pow2;
    CellEdges(c, min, side, Pow2(depth) as real, i as real, i as real + 1.0);
  }

  /** And a point inside the bounds of a node, off their edges, has the node over it. */
  lemma InsideIsOver(n: QNode, x: real, y: real, bounds: Area, res: real)
    requires SkeletonSide(bounds, res) > 0.0 && SoundKey(n.morton)
    requires var b := NodeBounds(n, bounds, res); b.minX < x < b.maxX && b.minY < y < b.maxY
    ensures Over(n, (x - bounds.minX) / SkeletonSide(bounds, res),
                    (y - bounds.minY) / SkeletonSide(bounds, res))
  {
    hide SkeletonSide, KeyDepth, KeyXY, NodeKey, Fits, Pow2, InCell;
    var side, d := SkeletonSide(bounds, res), KeyDepth(n.morton);
    AxisInside(x, bounds.minX, side, d, KeyXY(n.morton).0);
    AxisInside(y, bounds.minY, side, d, KeyXY(n.morton).1);
  }

  /** The key is that of a cell at its depth. */
  predicate SoundKey(key: nat) {
    var d, (x, y) := KeyDepth(key), KeyXY(key);
    Fits(x, y, d) && NodeKey(x, y, d) == key
  }

  lemma AxisInside(c: real, min: real, side: real, depth: nat, i: nat)
    requires side > 0.0
    requires var cell := side / Pow2(depth) as real;
      min + i as real * cell < c < min + (i as real + 1.0) * cell
    ensures InCell((c - min) / side, i, depth)
  {
    hide Pow2;
    var p := Pow2(depth) as real;
    var cell, t := side / p, (c - min) / side * p;
    assert t * cell == c - min by {
      assert (c - min) / side * side == c - min;
      assert p * cell == side;
    }
    ScaledBy(t, i as real, cell, c - min);
    ScaledBy(t, i as real + 1.0, cell, c - min);
  }

  lemma FractionInUnit(c: real, min: real, max: real, side: real)
    requires min <= c <= max && max - min <= side && side > 0.0
    ensures 0.0 <= (c - min) / side <= 1.0
  {
    PartOf(c - min, side);
  }

  /** A point of a map the square holds is always looked up. */
  lemma MapPointsLookedUp(x: real, y: real, bounds: Area, res: real)
    requires res > 0.0 && bounds.Contains(x, y)
    requires bounds.Width() <= MAX_SIDE_CELLS as real * res
    requires bounds.Height() <= MAX_SIDE_CELLS as real * res
    ensures SkeletonSide(bounds, res) > 0.0
    ensures 0.0 <= (x - bounds.minX) / SkeletonSide(bounds, res) <= 1.0
    ensures 0.0 <= (y - bounds.minY) / SkeletonSide(bounds, res) <= 1.0
  {
    hide SkeletonSide;
    SideHoldsMap(bounds, res);
    FractionInUnit(x, bounds.minX, bounds.maxX, SkeletonSide(bounds, res));
    FractionInUnit(y, bounds.minY, bounds.maxY, SkeletonSide(bounds, res));
  }
}
