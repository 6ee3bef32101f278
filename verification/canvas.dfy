/** The SVG canvas of the graph view (`src/components/graph/graph-canvas.tsx`): which node
    lies under the pointer, how the mouse handlers dispatch to the interaction handlers,
    how an edge is drawn between its endpoints, and the label a sentence node shows. */
module Canvas {
  import opened Base
  import opened GraphTypes
  import opened Text
  import opened Interactions
  import GraphData
  import GraphFacts
  import GraphLinks

  // ---------------------------------------------------------------------------
  // Hit testing

  function Sq(a: real): real { a * a }

  /** `p` lies within the node's circle, measured with the runtime's square root. */
  predicate Hit(n: GraphNode, p: Point, sqrt: real -> real) {
    sqrt(Sq(p.x - n.x) + Sq(p.y - n.y)) <= n.size / 2.0
  }

  /** The id of the node under the world point `p`: nodes are tested from last to first,
      so the one drawn on top wins. */
  function NodeAt(ns: seq<GraphNode>, p: Point, sqrt: real -> real): (r: Option<string>)
    ensures r.None? <==> forall i :: 0 <= i < |ns| ==> !Hit(ns[i], p, sqrt)
    ensures r.Some? ==> exists i :: 0 <= i < |ns| && Topmost(ns, p, sqrt, i) && r.value == ns[i].id
    decreases |ns|
  {
    if |ns| == 0 then None
    else
      var n := ns[|ns| - 1];
      if Hit(n, p, sqrt) then Some(n.id)
      else
        var r := NodeAt(ns[..|ns| - 1], p, sqrt);
        NodeAtStep(ns, p, sqrt);
        r
  }

  /** When the last node is missed, the earlier nodes decide: a hit among them is a hit in
      the whole list, and the topmost among them is the topmost overall. */
  lemma NodeAtStep(ns: seq<GraphNode>, p: Point, sqrt: real -> real)
    requires |ns| > 0 && !Hit(ns[|ns| - 1], p, sqrt)
    ensures forall i :: 0 <= i < |ns| - 1 ==> ns[..|ns| - 1][i] == ns[i]
    ensures forall i :: 0 <= i < |ns| - 1 && Topmost(ns[..|ns| - 1], p, sqrt, i) ==> Topmost(ns, p, sqrt, i)
  {
  }

  /** Node `i` is hit and no node drawn after it is. */
  predicate Topmost(ns: seq<GraphNode>, p: Point, sqrt: real -> real, i: int)
    requires 0 <= i < |ns|
  {
    Hit(ns[i], p, sqrt) && forall j :: i < j < |ns| ==> !Hit(ns[j], p, sqrt)
  }

  lemma SquaresOrdered(s: real, h: real)
    requires s >= 0.0 && h >= 0.0
    ensures s <= h <==> s * s <= h * h
  {
    if s <= h {
      assert s * s <= s * h;
      assert s * h <= h * h;
    } else {
      assert s - h > 0.0 && s + h > 0.0;
      assert (s - h) * (s + h) > 0.0;
      assert s * s - h * h == (s - h) * (s + h);
    }
  }

  /** With a true square root, the hit test is the comparison of squared distances: a
      point is within a node of non-negative size exactly when its squared distance is at
      most the squared radius. */
  lemma HitSquared(n: GraphNode, p: Point, rt: Runtime)
    requires Valid(rt)
    ensures Hit(n, p, rt.sqrt) <==>
      n.size >= 0.0 && Sq(p.x - n.x) + Sq(p.y - n.y) <= Sq(n.size / 2.0)
  {
    var d2 := Sq(p.x - n.x) + Sq(p.y - n.y);
    assert d2 >= 0.0;
    var s := rt.sqrt(d2);
    assert s >= 0.0 && s * s == d2;
    if n.size >= 0.0 {
      SquaresOrdered(s, n.size / 2.0);
    }
  }

  /** `getNodeAtPosition`: nothing is under the pointer before the element is mounted;
      otherwise the client point is taken to the element, then to the world. */
  function NodeAtPosition(ns: seq<GraphNode>, rect: Option<Rect>, v: View, client: Point, sqrt: real -> real): (r: Option<string>)
    ensures rect.None? ==> r.None?
    ensures rect.Some? ==> r == NodeAt(ns, ToWorld(v, Local(rect.value, client)), sqrt)
  {
    if rect.None? then None
    else NodeAt(ns, ToWorld(v, Local(rect.value, client)), sqrt)
  }

  /** Pointing at the place a node's centre is drawn finds that node when it is drawn
      last, whatever the pan and zoom. */
  lemma NodeAtFindsDrawn(ns: seq<GraphNode>, rect: Rect, v: View, rt: Runtime)
    requires Valid(rt) && |ns| > 0 && ns[|ns| - 1].size >= 0.0
    ensures var n := ns[|ns| - 1];
      var c := ToScreen(v, Point(n.x, n.y));
      NodeAtPosition(ns, Some(rect), v, Point(c.x + rect.left, c.y + rect.top), rt.sqrt) == Some(n.id)
  {
    var n := ns[|ns| - 1];
    var c := ToScreen(v, Point(n.x, n.y));
    assert Local(rect, Point(c.x + rect.left, c.y + rect.top)) == c;
    WorldScreenRoundTrip(v, Point(n.x, n.y));
    HitSquared(n, Point(n.x, n.y), rt);
  }

  // ---------------------------------------------------------------------------
  // Mouse dispatch

  /** `handleMouseMove`: the move goes to the drag when a node is being dragged and to
      the pan otherwise; then the hover is set to whatever lay under the pointer in the
      view the handler was rendered with, even nothing. */
  function MouseMove(v: View, ns: seq<GraphNode>, rect: Option<Rect>, client: Point, sqrt: real -> real): (r: View)
    ensures r.hovered == NodeAtPosition(ns, rect, v, client, sqrt)
    ensures Truthy(v.dragging) ==> r == DragMove(v, client).(hovered := r.hovered)
    ensures !Truthy(v.dragging) ==> r == PanMove(v, client).(hovered := r.hovered)
  {
    var hit := NodeAtPosition(ns, rect, v, client, sqrt);
    var moved := if Truthy(v.dragging) then DragMove(v, client) else PanMove(v, client);
    Hover(moved, hit)
  }

  /** `handleMouseDown`: pressing on a node starts dragging it; pressing on empty space,
      or on a node whose id is empty, starts a pan. */
  function MouseDown(v: View, ns: seq<GraphNode>, rect: Option<Rect>, client: Point, sqrt: real -> real): (r: View)
    ensures var hit := NodeAtPosition(ns, rect, v, client, sqrt);
      && (Truthy(hit) ==> r.dragging == hit && r.lastDrag == Some(client) && r.panning == v.panning)
      && (!Truthy(hit) ==> r == PanStart(v, client))
  {
    var hit := NodeAtPosition(ns, rect, v, client, sqrt);
    if Truthy(hit) then DragStart(v, hit.value, client) else PanStart(v, client)
  }

  /** `handleMouseUp`: ends the drag when there is one and the pan otherwise. */
  function MouseUp(v: View): (r: View)
    ensures r.positions == v.positions && r.panX == v.panX && r.panY == v.panY && r.zoom == v.zoom
    ensures Truthy(v.dragging) ==> r.dragging.None? && r.panning == v.panning
    ensures !Truthy(v.dragging) ==> !r.panning && r.dragging == v.dragging
  {
    if Truthy(v.dragging) then DragEnd(v) else PanEnd(v)
  }

  /** `handleClick`: a click on a node toggles its selection; a click elsewhere does
      nothing. */
  function MouseClick(v: View, ns: seq<GraphNode>, rect: Option<Rect>, client: Point, sqrt: real -> real): (r: View)
    ensures var hit := NodeAtPosition(ns, rect, v, client, sqrt);
      && (Truthy(hit) ==> r == Click(v, hit.value))
      && (!Truthy(hit) ==> r == v)
  {
    var hit := NodeAtPosition(ns, rect, v, client, sqrt);
    if Truthy(hit) then Click(v, hit.value) else v
  }

  /** Releasing a dragged node over itself is followed by a click that toggles its
      selection: the canvas does not tell a drag from a click. */
  lemma ClickAfterDrag(v: View, ns: seq<GraphNode>, rect: Option<Rect>, client: Point, sqrt: real -> real)
    requires Truthy(v.dragging)
    requires NodeAtPosition(ns, rect, v, client, sqrt) == v.dragging
    ensures var r := MouseClick(MouseUp(v), ns, rect, client, sqrt);
      && r.dragging.None?
      && (r.selected == v.dragging <==> v.selected != v.dragging)
  {
    var u := MouseUp(v);
    assert NodeAtPosition(ns, rect, u, client, sqrt) == NodeAtPosition(ns, rect, v, client, sqrt);
  }

  // ---------------------------------------------------------------------------
  // Edges

  /** The first node with the given id, as `nodes.find` returns it. */
  function FindNode(ns: seq<GraphNode>, id: string): (r: Option<GraphNode>)
    ensures r.None? <==> forall i :: 0 <= i < |ns| ==> ns[i].id != id
    ensures r.Some? ==> exists i :: 0 <= i < |ns| && ns[i] == r.value && FirstWithId(ns, id, i)
    decreases |ns|
  {
    if |ns| == 0 then None
    else if ns[0].id == id then Some(ns[0])
    else
      var r := FindNode(ns[1..], id);
      assert forall i :: 1 <= i < |ns| ==> ns[1..][i - 1] == ns[i];
      r
  }

  /** Node `i` has the id and no earlier node does. */
  predicate FirstWithId(ns: seq<GraphNode>, id: string, i: int)
    requires 0 <= i < |ns|
  {
    ns[i].id == id && forall j :: 0 <= j < i ==> ns[j].id != id
  }

  /** An SVG line. */
  datatype Line = Line(
    x1: real, y1: real, x2: real, y2: real,
    stroke: Hsl, width: real, opacity: real,
    dash: Option<string>,
    glowRadius: Option<real>)

  /** Similarity edges are dashed `5,5`, category edges `3,3`, and the rest are solid. */
  function Dash(t: EdgeType): (d: Option<string>)
    ensures d.Some? <==> t == SentenceSentence || t == CategorySentence
  {
    match t
    case SentenceSentence => Some("5,5")
    case CategorySentence => Some("3,3")
    case _ => None
  }

  lemma InNodeIds(ns: seq<GraphNode>, id: string)
    ensures id in NodeIds(ns) <==> exists i :: 0 <= i < |ns| && ns[i].id == id
  {
    if id in NodeIds(ns) {
      var k :| 0 <= k < |NodeIds(ns)| && NodeIds(ns)[k] == id;
      assert ns[k].id == id;
    }
  }

  function GlowRadius(glow: real): (r: Option<real>)
    ensures r.Some? <==> glow > 0.0
    ensures r.Some? ==> r.value == glow * 3.0
  {
    if glow > 0.0 then Some(glow * 3.0) else None
  }

  /** `renderEdge`: nothing when either endpoint is missing; otherwise a line from the
      first node with the source id to the first node with the target id, in the edge's
      colour, thickness and opacity, dashed by its type. */
  function DrawEdge(ns: seq<GraphNode>, e: GraphEdge): (r: Option<Line>)
    ensures r.Some? <==> HasEndpoints(ns, e)
    ensures r.Some? ==>
      && (exists i :: 0 <= i < |ns| && FirstWithId(ns, e.source, i) && r.value.x1 == ns[i].x && r.value.y1 == ns[i].y)
      && (exists i :: 0 <= i < |ns| && FirstWithId(ns, e.target, i) && r.value.x2 == ns[i].x && r.value.y2 == ns[i].y)
      && r.value.dash == Dash(e.edgeType) && r.value.stroke == e.color
      && r.value.width == e.visualProps.thickness && r.value.opacity == e.visualProps.opacity
  {
    InNodeIds(ns, e.source);
    InNodeIds(ns, e.target);
    var s := FindNode(ns, e.source);
    var t := FindNode(ns, e.target);
    if s.None? || t.None? then None
    else
      var p := e.visualProps;
      Some(Line(s.value.x, s.value.y, t.value.x, t.value.y, e.color, p.thickness, p.opacity,
                Dash(e.edgeType), GlowRadius(p.glow)))
  }

  /** The lines the canvas draws: edges with a missing endpoint are dropped. */
  function DrawEdges(ns: seq<GraphNode>, es: seq<GraphEdge>): (ls: seq<Line>)
    ensures |ls| <= |es|
    ensures (forall i :: 0 <= i < |es| ==> HasEndpoints(ns, es[i])) ==> |ls| == |es|
    decreases |es|
  {
    if |es| == 0 then []
    else
      var rest := DrawEdges(ns, es[1..]);
      assert forall i :: 1 <= i < |es| ==> es[1..][i - 1] == es[i];
      match DrawEdge(ns, es[0])
      case Some(l) => [l] + rest
      case None => rest
  }

  /** Edges are drawn one by one: the lines of a concatenation are the lines of its
      parts, in order. */
  lemma {:induction false} DrawEdgesAppend(ns: seq<GraphNode>, a: seq<GraphEdge>, b: seq<GraphEdge>)
    ensures DrawEdges(ns, a + b) == DrawEdges(ns, a) + DrawEdges(ns, b)
    decreases |a|
  {
    if |a| == 0 {
      assert a + b == b;
    } else {
      var ab := a + b;
      var first := Lines(DrawEdge(ns, a[0]));
      assert ab[0] == a[0];
      assert ab[1..] == a[1..] + b;
      calc {
        DrawEdges(ns, ab);
        { DrawEdgesFirst(ns, ab); }
        first + DrawEdges(ns, a[1..] + b);
        { DrawEdgesAppend(ns, a[1..], b); }
        first + (DrawEdges(ns, a[1..]) + DrawEdges(ns, b));
        (first + DrawEdges(ns, a[1..])) + DrawEdges(ns, b);
        { DrawEdgesFirst(ns, a); }
        DrawEdges(ns, a) + DrawEdges(ns, b);
      }
    }
  }

  /** The first edge's line, if any, comes before the rest's. */
  lemma DrawEdgesFirst(ns: seq<GraphNode>, es: seq<GraphEdge>)
    requires |es| > 0
    ensures DrawEdges(ns, es) == Lines(DrawEdge(ns, es[0])) + DrawEdges(ns, es[1..])
  {
  }

  /** A single edge gives its line exactly when both its ends exist. */
  lemma DrawEdgesOne(ns: seq<GraphNode>, e: GraphEdge)
    ensures DrawEdges(ns, [e]) == if HasEndpoints(ns, e) then [DrawEdge(ns, e).value] else []
  {
    DrawEdgesFirst(ns, [e]);
    assert [e][1..] == [];
  }

  /** The lines an optional line stands for. */
  function Lines(l: Option<Line>): seq<Line> {
    if l.Some? then [l.value] else []
  }

  /** The drawn lines are exactly the lines of the edges whose ends both exist. */
  lemma {:induction false} DrawEdgesMembers(ns: seq<GraphNode>, es: seq<GraphEdge>)
    ensures forall l :: l in DrawEdges(ns, es) <==> exists i :: 0 <= i < |es| && DrawEdge(ns, es[i]) == Some(l)
    decreases |es|
  {
    if |es| > 0 {
      DrawEdgesMembers(ns, es[1..]);
      forall l ensures (exists i :: 0 <= i < |es| && DrawEdge(ns, es[i]) == Some(l)) <==>
        DrawEdge(ns, es[0]) == Some(l) || exists j :: 0 <= j < |es[1..]| && DrawEdge(ns, es[1..][j]) == Some(l)
      {
        if exists i :: 0 <= i < |es| && DrawEdge(ns, es[i]) == Some(l) {
          var i :| 0 <= i < |es| && DrawEdge(ns, es[i]) == Some(l);
          if i > 0 {
            assert es[1..][i - 1] == es[i];
          }
        }
      }
    }
  }

  /** The canvas draws every edge of a graph the builder produced: no edge refers to a
      node the graph lacks. */
  lemma BuiltEdgesDrawn(input: GraphData.GraphInput, rt: Runtime)
    ensures var g := GraphData.BuildGraph(input, rt);
      |DrawEdges(g.nodes, g.edges)| == |g.edges|
  {
    if |input.memories| > 0 {
      GraphFacts.BuildParts(input, rt);
      GraphLinks.EdgesClosed(input, rt);
      var g := GraphData.BuildGraph(input, rt);
      assert forall i :: 0 <= i < |g.edges| ==> g.edges[i] in GraphData.EdgesOf(input, rt);
    }
  }

  // ---------------------------------------------------------------------------
  // Sentence labels

  /** `Math.floor(size / 3)`: how many characters of the sentence fit in the node. */
  function MaxTextLength(size: real): int {
    (size / 3.0).Floor
  }

  /** `substring(0, k)`: a negative end counts as zero and one past the end as the end. */
  function Prefix(s: string, k: int): (p: string)
    ensures p <= s
    ensures |p| == if k <= 0 then 0 else if k >= |s| then |s| else k
  {
    if k <= 0 then [] else if k >= |s| then s else s[..k]
  }

  /** The sentence cut to `MaxTextLength` characters, followed by `...`, when it is
      longer than that; otherwise the whole sentence. */
  function DisplayText(sentence: string, size: real): (d: string)
    ensures |sentence| <= MaxTextLength(size) ==> d == sentence
    ensures |sentence| > MaxTextLength(size) ==>
      && |d| == (if MaxTextLength(size) < 0 then 0 else MaxTextLength(size)) + 3
      && d[..|d| - 3] <= sentence
      && d[|d| - 3..] == "..."
  {
    var max := MaxTextLength(size);
    if |sentence| > max then Prefix(sentence, max) + "..." else sentence
  }

  /** The first three space-separated words of the display text. */
  function FirstWords(d: string): string {
    var words := Split(d, ' ');
    Join(words[..if |words| < 3 then |words| else 3], ' ')
  }

  /** The label drawn inside a sentence node: only nodes larger than 40 show one. */
  function Label(sentence: string, size: real): (l: Option<string>)
    ensures l.Some? <==> size > 40.0
  {
    if size > 40.0 then Some(FirstWords(DisplayText(sentence, size))) else None
  }

  /** A label reads as the start of the display text and has at most three words. */
  lemma LabelShape(sentence: string, size: real)
    requires size > 40.0
    ensures var d := DisplayText(sentence, size);
      var l := Label(sentence, size).value;
      && l <= d
      && |Split(l, ' ')| <= 3
      && |Split(l, ' ')| == (if |Split(d, ' ')| < 3 then |Split(d, ' ')| else 3)
  {
    var d := DisplayText(sentence, size);
    var words := Split(d, ' ');
    var k := if |words| < 3 then |words| else 3;
    JoinPrefix(words, k, ' ');
    JoinSplit(d, ' ');
    SplitJoin(words[..k], ' ');
  }

  /** A label uses the whole display text when it has at most three words. */
  lemma ShortLabelWhole(sentence: string, size: real)
    requires size > 40.0
    requires |Split(DisplayText(sentence, size), ' ')| <= 3
    ensures Label(sentence, size) == Some(DisplayText(sentence, size))
  {
    var d := DisplayText(sentence, size);
    var words := Split(d, ' ');
    assert words[..|words|] == words;
    JoinSplit(d, ' ');
  }

  /** `Math.min(10, size / 4)`. */
  function FontSize(size: real): (f: real)
    ensures f <= 10.0 && f <= size / 4.0
    ensures f == 10.0 || f == size / 4.0
  {
    Min(10.0, size / 4.0)
  }
}
