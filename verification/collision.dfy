/** `applyCollisionAvoidance` (`src/components/graph/hooks/use-graph-data.ts`):
    three passes over every pair of sentence nodes; a pair closer than the minimum
    distance is pushed apart along the line joining it, each node by a quarter of the
    shortfall, in opposite directions. Only positions change. */
module Collision {
  import opened Base
  import opened GraphTypes

  /** The number of passes the source makes. */
  const Iterations: nat := 3

  /** `Math.sqrt(dx * dx + dy * dy) || 1`: the distance, with 0 replaced by 1. */
  function Separation(dx: real, dy: real, sqrt: real -> real): (d: real)
    ensures d != 0.0
    ensures sqrt(dx * dx + dy * dy) != 0.0 ==> d == sqrt(dx * dx + dy * dy)
  {
    var s := sqrt(dx * dx + dy * dy);
    if s == 0.0 then 1.0 else s
  }

  /** `b` is `a` with at most its position changed. */
  predicate Repositioned(a: GraphNode, b: GraphNode) {
    b == a.(x := b.x, y := b.y)
  }

  /** The same nodes in the same order, with at most their positions changed. */
  predicate AllRepositioned(a: seq<GraphNode>, b: seq<GraphNode>) {
    |a| == |b| && forall k :: 0 <= k < |a| ==> Repositioned(a[k], b[k])
  }

  lemma AllRepositionedTrans(a: seq<GraphNode>, b: seq<GraphNode>, c: seq<GraphNode>)
    requires AllRepositioned(a, b) && AllRepositioned(b, c)
    ensures AllRepositioned(a, c)
  {
    forall k | 0 <= k < |a| ensures Repositioned(a[k], c[k]) {
      assert Repositioned(a[k], b[k]);
      assert Repositioned(b[k], c[k]);
    }
  }

  /** The body of the inner loop for one pair: the new positions of `a` and `b`. */
  function Push(a: GraphNode, b: GraphNode, minDistance: real, sqrt: real -> real): (r: (GraphNode, GraphNode))
    ensures Repositioned(a, r.0) && Repositioned(b, r.1)
    ensures r.0.x + r.1.x == a.x + b.x && r.0.y + r.1.y == a.y + b.y
    ensures Separation(b.x - a.x, b.y - a.y, sqrt) >= minDistance ==> r == (a, b)
  {
    var dx := b.x - a.x;
    var dy := b.y - a.y;
    var dist := Separation(dx, dy, sqrt);
    if dist < minDistance then
      var push := (minDistance - dist) / 4.0;
      var nx := dx / dist;
      var ny := dy / dist;
      (a.(x := a.x - nx * push, y := a.y - ny * push), b.(x := b.x + nx * push, y := b.y + ny * push))
    else
      (a, b)
  }

  /** Coincident nodes stay where they are: the unit vector of a zero offset is zero,
      whatever distance stands in for it. */
  lemma PushCoincident(a: GraphNode, b: GraphNode, minDistance: real, sqrt: real -> real)
    requires a.x == b.x && a.y == b.y
    ensures Push(a, b, minDistance, sqrt) == (a, b)
  {
  }

  lemma ScaleOffset(d: real, dist: real, m: real)
    requires dist != 0.0
    ensures (d + 2.0 * ((d / dist) * ((m - dist) / 4.0))) * (2.0 * dist) == d * (dist + m)
  {
    var n := d / dist;
    assert n * dist == d;
    calc {
      (d + 2.0 * (n * ((m - dist) / 4.0))) * (2.0 * dist);
      2.0 * dist * d + n * dist * (m - dist);
      2.0 * dist * d + d * (m - dist);
    }
  }

  /** A pair closer than the minimum moves apart along its own line: the new offset is
      the old one scaled by (dist + min) / (2 dist), so a true distance `dist` becomes
      the midpoint between `dist` and the minimum. */
  lemma PushSpreads(a: GraphNode, b: GraphNode, minDistance: real, sqrt: real -> real)
    requires Separation(b.x - a.x, b.y - a.y, sqrt) < minDistance
    ensures var dist := Separation(b.x - a.x, b.y - a.y, sqrt);
      var r := Push(a, b, minDistance, sqrt);
      && (r.1.x - r.0.x) * (2.0 * dist) == (b.x - a.x) * (dist + minDistance)
      && (r.1.y - r.0.y) * (2.0 * dist) == (b.y - a.y) * (dist + minDistance)
  {
    var dist := Separation(b.x - a.x, b.y - a.y, sqrt);
    var r := Push(a, b, minDistance, sqrt);
    var push := (minDistance - dist) / 4.0;
    var nx := (b.x - a.x) / dist;
    var ny := (b.y - a.y) / dist;
    assert r.1.x - r.0.x == (b.x - a.x) + 2.0 * (nx * push);
    assert r.1.y - r.0.y == (b.y - a.y) + 2.0 * (ny * push);
    ScaleOffset(b.x - a.x, dist, minDistance);
    ScaleOffset(b.y - a.y, dist, minDistance);
  }

  /** A close pair that is not aligned vertically does move: in particular a node placed
      at an explicit position can be moved away from it. */
  lemma PushMoves(a: GraphNode, b: GraphNode, minDistance: real, sqrt: real -> real)
    requires Separation(b.x - a.x, b.y - a.y, sqrt) < minDistance
    requires a.x != b.x
    ensures Push(a, b, minDistance, sqrt).0.x != a.x
    ensures Push(a, b, minDistance, sqrt).1.x != b.x
  {
    var dist := Separation(b.x - a.x, b.y - a.y, sqrt);
    var push := (minDistance - dist) / 4.0;
    var nx := (b.x - a.x) / dist;
    assert nx * dist == b.x - a.x;
    assert push > 0.0;
    assert nx * push != 0.0;
  }

  /** One inner-loop step on the pair (i, j) of the node list. */
  function Step(ns: seq<GraphNode>, i: nat, j: nat, minDistance: real, sqrt: real -> real): (r: seq<GraphNode>)
    requires i < j < |ns|
    ensures AllRepositioned(ns, r)
  {
    var p := Push(ns[i], ns[j], minDistance, sqrt);
    ns[i := p.0][j := p.1]
  }

  /** The inner `forEach` for node `i`, from index `j` on; indices up to `i` are skipped. */
  function InnerPass(ns: seq<GraphNode>, i: nat, j: nat, minDistance: real, sqrt: real -> real): (r: seq<GraphNode>)
    requires i < |ns| && j <= |ns|
    ensures AllRepositioned(ns, r)
    decreases |ns| - j
  {
    if j == |ns| then ns
    else if i >= j then InnerPass(ns, i, j + 1, minDistance, sqrt)
    else
      var s := Step(ns, i, j, minDistance, sqrt);
      var r := InnerPass(s, i, j + 1, minDistance, sqrt);
      AllRepositionedTrans(ns, s, r);
      r
  }

  /** The outer `forEach`, from node `i` on. */
  function OuterPass(ns: seq<GraphNode>, i: nat, minDistance: real, sqrt: real -> real): (r: seq<GraphNode>)
    requires i <= |ns|
    ensures AllRepositioned(ns, r)
    decreases |ns| - i
  {
    if i == |ns| then ns
    else
      var s := InnerPass(ns, i, 0, minDistance, sqrt);
      var r := OuterPass(s, i + 1, minDistance, sqrt);
      AllRepositionedTrans(ns, s, r);
      r
  }

  /** `k` full passes. */
  function Passes(ns: seq<GraphNode>, k: nat, minDistance: real, sqrt: real -> real): (r: seq<GraphNode>)
    ensures AllRepositioned(ns, r)
    decreases k
  {
    if k == 0 then ns
    else
      var s := OuterPass(ns, 0, minDistance, sqrt);
      var r := Passes(s, k - 1, minDistance, sqrt);
      AllRepositionedTrans(ns, s, r);
      r
  }

  /** `applyCollisionAvoidance(nodes, minDistance)`. */
  function Collide(ns: seq<GraphNode>, minDistance: real, sqrt: real -> real): (r: seq<GraphNode>)
    ensures AllRepositioned(ns, r)
  {
    Passes(ns, Iterations, minDistance, sqrt)
  }

  // ---------------------------------------------------------------------------
  // The centroid is preserved

  function SumX(ns: seq<GraphNode>): real
  {
    if |ns| == 0 then 0.0 else SumX(ns[..|ns| - 1]) + ns[|ns| - 1].x
  }

  function SumY(ns: seq<GraphNode>): real
  {
    if |ns| == 0 then 0.0 else SumY(ns[..|ns| - 1]) + ns[|ns| - 1].y
  }

  lemma {:induction false} SumUpdate(ns: seq<GraphNode>, i: nat, v: GraphNode)
    requires i < |ns|
    ensures SumX(ns[i := v]) == SumX(ns) - ns[i].x + v.x
    ensures SumY(ns[i := v]) == SumY(ns) - ns[i].y + v.y
  {
    var n := |ns| - 1;
    if i < n {
      SumUpdate(ns[..n], i, v);
      assert ns[i := v][..n] == ns[..n][i := v];
    } else {
      assert ns[i := v][..n] == ns[..n];
    }
  }

  lemma StepSums(ns: seq<GraphNode>, i: nat, j: nat, minDistance: real, sqrt: real -> real)
    requires i < j < |ns|
    ensures SumX(Step(ns, i, j, minDistance, sqrt)) == SumX(ns)
    ensures SumY(Step(ns, i, j, minDistance, sqrt)) == SumY(ns)
  {
    var p := Push(ns[i], ns[j], minDistance, sqrt);
    SumUpdate(ns, i, p.0);
    SumUpdate(ns[i := p.0], j, p.1);
  }

  lemma {:induction false} InnerPassSums(ns: seq<GraphNode>, i: nat, j: nat, minDistance: real, sqrt: real -> real)
    requires i < |ns| && j <= |ns|
    ensures SumX(InnerPass(ns, i, j, minDistance, sqrt)) == SumX(ns)
    ensures SumY(InnerPass(ns, i, j, minDistance, sqrt)) == SumY(ns)
    decreases |ns| - j
  {
    if j < |ns| {
      if i >= j {
        InnerPassSums(ns, i, j + 1, minDistance, sqrt);
      } else {
        var s := Step(ns, i, j, minDistance, sqrt);
        StepSums(ns, i, j, minDistance, sqrt);
        InnerPassSums(s, i, j + 1, minDistance, sqrt);
      }
    }
  }

  lemma {:induction false} OuterPassSums(ns: seq<GraphNode>, i: nat, minDistance: real, sqrt: real -> real)
    requires i <= |ns|
    ensures SumX(OuterPass(ns, i, minDistance, sqrt)) == SumX(ns)
    ensures SumY(OuterPass(ns, i, minDistance, sqrt)) == SumY(ns)
    decreases |ns| - i
  {
    if i < |ns| {
      var s := InnerPass(ns, i, 0, minDistance, sqrt);
      InnerPassSums(ns, i, 0, minDistance, sqrt);
      OuterPassSums(s, i + 1, minDistance, sqrt);
    }
  }

  lemma {:induction false} PassesSums(ns: seq<GraphNode>, k: nat, minDistance: real, sqrt: real -> real)
    ensures SumX(Passes(ns, k, minDistance, sqrt)) == SumX(ns)
    ensures SumY(Passes(ns, k, minDistance, sqrt)) == SumY(ns)
    decreases k
  {
    if k > 0 {
      OuterPassSums(ns, 0, minDistance, sqrt);
      PassesSums(OuterPass(ns, 0, minDistance, sqrt), k - 1, minDistance, sqrt);
    }
  }

  /** Every push is equal and opposite, so the sums of the x and of the y coordinates
      (hence the centroid) are the same before and after collision avoidance. */
  lemma CollidePreservesCentroid(ns: seq<GraphNode>, minDistance: real, sqrt: real -> real)
    ensures SumX(Collide(ns, minDistance, sqrt)) == SumX(ns)
    ensures SumY(Collide(ns, minDistance, sqrt)) == SumY(ns)
  {
    PassesSums(ns, Iterations, minDistance, sqrt);
  }

  /** Nodes that are all pairwise far enough apart are left exactly where they are. */
  predicate Spread(ns: seq<GraphNode>, minDistance: real, sqrt: real -> real) {
    forall i, j :: 0 <= i < j < |ns| ==>
      Separation(ns[j].x - ns[i].x, ns[j].y - ns[i].y, sqrt) >= minDistance
  }

  lemma {:induction false} InnerPassSpread(ns: seq<GraphNode>, i: nat, j: nat, minDistance: real, sqrt: real -> real)
    requires i < |ns| && j <= |ns|
    requires Spread(ns, minDistance, sqrt)
    ensures InnerPass(ns, i, j, minDistance, sqrt) == ns
    decreases |ns| - j
  {
    if j < |ns| {
      if i < j {
        assert Step(ns, i, j, minDistance, sqrt) == ns;
      }
      InnerPassSpread(ns, i, j + 1, minDistance, sqrt);
    }
  }

  lemma {:induction false} OuterPassSpread(ns: seq<GraphNode>, i: nat, minDistance: real, sqrt: real -> real)
    requires i <= |ns|
    requires Spread(ns, minDistance, sqrt)
    ensures OuterPass(ns, i, minDistance, sqrt) == ns
    decreases |ns| - i
  {
    if i < |ns| {
      InnerPassSpread(ns, i, 0, minDistance, sqrt);
      OuterPassSpread(ns, i + 1, minDistance, sqrt);
    }
  }

  lemma {:induction false} CollideSpread(ns: seq<GraphNode>, minDistance: real, sqrt: real -> real)
    requires Spread(ns, minDistance, sqrt)
    ensures Collide(ns, minDistance, sqrt) == ns
  {
    OuterPassSpread(ns, 0, minDistance, sqrt);
    assert Passes(ns, 0, minDistance, sqrt) == ns;
    assert Passes(ns, 1, minDistance, sqrt) == ns;
    assert Passes(ns, 2, minDistance, sqrt) == ns;
  }

  /** The source's nested loops, updating the node list in place. */
  method ApplyCollisionAvoidance(nodes: seq<GraphNode>, minDistance: real, sqrt: real -> real)
    returns (r: seq<GraphNode>)
    ensures r == Collide(nodes, minDistance, sqrt)
    ensures AllRepositioned(nodes, r)
    ensures SumX(r) == SumX(nodes) && SumY(r) == SumY(nodes)
  {
    r := nodes;
    var iter := 0;
    while iter < Iterations
      invariant 0 <= iter <= Iterations
      invariant |r| == |nodes|
      invariant Passes(r, Iterations - iter, minDistance, sqrt) == Collide(nodes, minDistance, sqrt)
    {
      var i := 0;
      ghost var start := r;
      while i < |r|
        invariant 0 <= i <= |r| == |nodes|
        invariant OuterPass(r, i, minDistance, sqrt) == OuterPass(start, 0, minDistance, sqrt)
      {
        var j := 0;
        ghost var row := r;
        while j < |r|
          invariant 0 <= j <= |r| == |nodes|
          invariant InnerPass(r, i, j, minDistance, sqrt) == InnerPass(row, i, 0, minDistance, sqrt)
        {
          if i < j {
            var p := Push(r[i], r[j], minDistance, sqrt);
            r := r[i := p.0][j := p.1];
          }
          j := j + 1;
        }
        i := i + 1;
      }
      iter := iter + 1;
    }
    CollidePreservesCentroid(nodes, minDistance, sqrt);
  }
}
