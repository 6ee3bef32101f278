/** The viewport and interaction controller of the graph view: pan, zoom, hover,
    selection, node dragging, and the map of position overrides that dragging writes
    (`src/components/graph/hooks/use-graph-interactions.ts`). Each handler is a pure
    transition from one view state to the next. */
module Interactions {
  import opened Base
  import opened GraphTypes
  import opened Constants

  /** A zoom factor. Every transition keeps it positive, so world coordinates are
      always defined. */
  type Zoom = z: real | z > 0.0 witness 1.0

  /** The hook's state: its React state and its refs. */
  datatype View = View(
    panX: real,
    panY: real,
    zoom: Zoom,
    hovered: Option<string>,
    selected: Option<string>,
    dragging: Option<string>,
    positions: map<string, Point>,
    panning: bool,
    lastPan: Option<Point>,
    lastDrag: Option<Point>)

  /** The element's bounding rectangle on the page. */
  datatype Rect = Rect(left: real, top: real, width: real, height: real)

  /** The state the hook starts in. */
  function Initial(): (v: View)
    ensures ZoomInRange(v) && IsIdentity(v)
    ensures v.positions == map[] && !v.panning && v.dragging.None?
  {
    View(0.0, 0.0, 1.0, None, None, None, map[], false, None, None)
  }

  predicate ZoomInRange(v: View) {
    MinZoom <= v.zoom <= MaxZoom
  }

  /** Where a world point is drawn: the canvas translates by the pan, then scales. */
  function ToScreen(v: View, p: Point): Point {
    Point(Place(p.x, v.zoom, v.panX), Place(p.y, v.zoom, v.panY))
  }

  /** Where a world coordinate is drawn along one axis. */
  function Place(c: real, zoom: real, pan: real): real {
    c * zoom + pan
  }

  /** The world point under a point of the element, `(local - pan) / zoom`. */
  function ToWorld(v: View, p: Point): Point {
    Point((p.x - v.panX) / v.zoom, (p.y - v.panY) / v.zoom)
  }

  /** The view draws every world point where it is. */
  predicate IsIdentity(v: View) {
    v.panX == 0.0 && v.panY == 0.0 && v.zoom == 1.0
  }

  function Local(rect: Rect, client: Point): Point {
    Point(client.x - rect.left, client.y - rect.top)
  }

  lemma MulDiv(a: real, z: real)
    requires z > 0.0
    ensures (a * z) / z == a
  {
  }

  lemma DivMul(a: real, z: real)
    requires z > 0.0
    ensures (a / z) * z == a
  {
  }

  /** Mapping to the world and back to the screen is the identity, and the other way round. */
  lemma WorldScreenRoundTrip(v: View, p: Point)
    ensures ToScreen(v, ToWorld(v, p)) == p
    ensures ToWorld(v, ToScreen(v, p)) == p
  {
    DivMul(p.x - v.panX, v.zoom);
    DivMul(p.y - v.panY, v.zoom);
    MulDiv(p.x, v.zoom);
    MulDiv(p.y, v.zoom);
  }

  /** Only the camera (pan and zoom) differs between `a` and `b`. */
  predicate CameraOnly(a: View, b: View) {
    b == a.(panX := b.panX, panY := b.panY, zoom := b.zoom)
  }

  /** Only the pan gesture's fields and the pan differ between `a` and `b`. */
  predicate PanOnly(a: View, b: View) {
    b == a.(panX := b.panX, panY := b.panY, panning := b.panning, lastPan := b.lastPan)
  }

  // ---------------------------------------------------------------------------
  // Panning

  /** `handlePanStart`: ignored while a node is dragged. */
  function PanStart(v: View, client: Point): (r: View)
    ensures PanOnly(v, r) && r.panX == v.panX && r.panY == v.panY
    ensures Truthy(v.dragging) ==> r == v
    ensures !Truthy(v.dragging) ==> r.panning && r.lastPan == Some(client)
  {
    if Truthy(v.dragging) then v
    else v.(panning := true, lastPan := Some(client))
  }

  /** `handlePanMove`: adds the raw screen delta to the pan, whatever the zoom. */
  function PanMove(v: View, client: Point): (r: View)
    ensures PanOnly(v, r) && r.panning == v.panning
    ensures !(v.panning && v.lastPan.Some?) ==> r == v
    ensures v.panning && v.lastPan.Some? ==>
      && r.panX - v.panX == client.x - v.lastPan.value.x
      && r.panY - v.panY == client.y - v.lastPan.value.y
      && r.lastPan == Some(client)
  {
    if !v.panning || v.lastPan.None? then v
    else
      var last := v.lastPan.value;
      v.(panX := v.panX + (client.x - last.x), panY := v.panY + (client.y - last.y), lastPan := Some(client))
  }

  /** `handlePanEnd`. */
  function PanEnd(v: View): (r: View)
    ensures PanOnly(v, r) && r.panX == v.panX && r.panY == v.panY
    ensures !r.panning && r.lastPan.None?
  {
    v.(panning := false, lastPan := None)
  }

  /** A run of pan moves. */
  function PanMoves(v: View, pts: seq<Point>): View
    decreases |pts|
  {
    if |pts| == 0 then v else PanMoves(PanMove(v, pts[0]), pts[1..])
  }

  /** The pan moves by the pointer's total displacement since the gesture began, however
      it was split into moves. */
  lemma {:induction false} PanMovesTotal(v: View, pts: seq<Point>)
    requires v.panning && v.lastPan.Some? && |pts| > 0
    ensures var r := PanMoves(v, pts);
      var last := pts[|pts| - 1];
      && PanOnly(v, r) && r.panning && r.lastPan == Some(last)
      && r.panX == v.panX + (last.x - v.lastPan.value.x)
      && r.panY == v.panY + (last.y - v.lastPan.value.y)
    decreases |pts|
  {
    var w := PanMove(v, pts[0]);
    if |pts| > 1 {
      PanMovesTotal(w, pts[1..]);
      assert pts[1..][|pts| - 2] == pts[|pts| - 1];
    }
  }

  // ---------------------------------------------------------------------------
  // Zooming

  function WheelFactor(deltaY: real): real {
    if deltaY > 0.0 then 0.9 else 1.1
  }

  /** Sets the zoom and moves the pan so that the world point under `anchor` stays put. */
  function ZoomAbout(v: View, zoom: Zoom, anchor: Point): (r: View)
    ensures CameraOnly(v, r) && r.zoom == zoom
    ensures ToWorld(r, anchor) == ToWorld(v, anchor)
  {
    var world := ToWorld(v, anchor);
    var r := v.(zoom := zoom, panX := anchor.x - world.x * zoom, panY := anchor.y - world.y * zoom);
    MulDiv(world.x, zoom);
    MulDiv(world.y, zoom);
    r
  }

  /** `handleWheel`: scales the zoom by 0.9 or 1.1, clamps it to the zoom range, and keeps
      the point under the cursor fixed. */
  function Wheel(v: View, rect: Rect, client: Point, deltaY: real): (r: View)
    ensures CameraOnly(v, r) && ZoomInRange(r)
    ensures r.zoom == Clamp(v.zoom * WheelFactor(deltaY), MinZoom, MaxZoom)
    ensures ToWorld(r, Local(rect, client)) == ToWorld(v, Local(rect, client))
  {
    var z: Zoom := Clamp(v.zoom * WheelFactor(deltaY), MinZoom, MaxZoom);
    ZoomAbout(v, z, Local(rect, client))
  }

  /** Scrolling down zooms out and scrolling up zooms in, until the zoom reaches the end
      of its range. */
  lemma WheelDirection(v: View, rect: Rect, client: Point, deltaY: real)
    requires ZoomInRange(v)
    ensures var r := Wheel(v, rect, client, deltaY);
      && (deltaY > 0.0 ==> r.zoom <= v.zoom && (v.zoom > MinZoom ==> r.zoom < v.zoom))
      && (deltaY <= 0.0 ==> r.zoom >= v.zoom && (v.zoom < MaxZoom ==> r.zoom > v.zoom))
  {
  }

  /** `zoomIn`: multiplies the zoom by 1.2, capped at the maximum, about the given point. */
  function ZoomIn(v: View, center: Point): (r: View)
    ensures CameraOnly(v, r)
    ensures r.zoom == Min(MaxZoom, v.zoom * 1.2)
    ensures ToWorld(r, center) == ToWorld(v, center)
    ensures ZoomInRange(v) ==> ZoomInRange(r) && r.zoom >= v.zoom
  {
    var z: Zoom := Min(MaxZoom, v.zoom * 1.2);
    ZoomAbout(v, z, center)
  }

  /** `zoomOut`: multiplies the zoom by 0.8, floored at the minimum, about the given point. */
  function ZoomOut(v: View, center: Point): (r: View)
    ensures CameraOnly(v, r)
    ensures r.zoom == Max(MinZoom, v.zoom * 0.8)
    ensures ToWorld(r, center) == ToWorld(v, center)
    ensures ZoomInRange(v) ==> ZoomInRange(r) && r.zoom <= v.zoom
  {
    var z: Zoom := Max(MinZoom, v.zoom * 0.8);
    ZoomAbout(v, z, center)
  }

  /** `handleDoubleClick`: the camera returns to the identity and nothing else changes. */
  function DoubleClick(v: View): (r: View)
    ensures CameraOnly(v, r) && IsIdentity(r) && ZoomInRange(r)
    ensures forall p :: ToScreen(r, p) == p
  {
    v.(panX := 0.0, panY := 0.0, zoom := 1.0)
  }

  /** `centerViewportOn`: pans so that a world point is drawn at the viewport's centre. */
  function CenterOn(v: View, world: Point, width: real, height: real): (r: View)
    ensures CameraOnly(v, r) && r.zoom == v.zoom
    ensures ToScreen(r, world) == Point(width / 2.0, height / 2.0)
  {
    v.(panX := CenteringPan(world.x, v.zoom, width), panY := CenteringPan(world.y, v.zoom, height))
  }

  /** The pan along one axis that draws the world coordinate `c` at the middle of `extent`. */
  function CenteringPan(c: real, zoom: real, extent: real): (pan: real)
    ensures Place(c, zoom, pan) == extent / 2.0
  {
    extent / 2.0 - c * zoom
  }

  // ---------------------------------------------------------------------------
  // Hover, selection and dragging

  /** `handleNodeHover`. */
  function Hover(v: View, id: Option<string>): (r: View)
    ensures r.hovered == id && r == v.(hovered := r.hovered)
  {
    v.(hovered := id)
  }

  /** `handleNodeClick`: clicking the selected node clears the selection; clicking any
      other node selects it. */
  function Click(v: View, id: string): (r: View)
    ensures r == v.(selected := r.selected)
    ensures r.selected == Some(id) <==> v.selected != Some(id)
    ensures r.selected.None? <==> v.selected == Some(id)
  {
    v.(selected := if v.selected == Some(id) then None else Some(id))
  }

  /** Clicking the same node twice restores the selection, unless another node was
      selected before, which the first click replaced. */
  lemma ClickTwice(v: View, id: string)
    ensures Click(Click(v, id), id).selected == (if v.selected == Some(id) then Some(id) else None)
  {
  }

  /** `handleNodeDragStart`. */
  function DragStart(v: View, id: string, client: Point): (r: View)
    ensures r == v.(dragging := Some(id), lastDrag := Some(client))
  {
    v.(dragging := Some(id), lastDrag := Some(client))
  }

  /** The override a drag starts from: the node's entry, or the origin when it has none,
      not the place the node is drawn. */
  function DragBase(positions: map<string, Point>, id: string): Point {
    if id in positions then positions[id] else Point(0.0, 0.0)
  }

  /** Only the dragged node's override differs between the two maps. */
  predicate OnlyEntry(a: map<string, Point>, b: map<string, Point>, id: string) {
    && b.Keys == a.Keys + {id}
    && (forall k :: k in a && k != id ==> b[k] == a[k])
  }

  /** `handleNodeDragMove`: moves the dragged node's override by the screen delta over
      the zoom. */
  function DragMove(v: View, client: Point): (r: View)
    ensures r == v.(positions := r.positions, lastDrag := r.lastDrag)
    ensures !(Truthy(v.dragging) && v.lastDrag.Some?) ==> r == v
    ensures Truthy(v.dragging) && v.lastDrag.Some? ==>
      var id := v.dragging.value;
      var last := v.lastDrag.value;
      && OnlyEntry(v.positions, r.positions, id)
      && (r.positions[id].x - DragBase(v.positions, id).x) * v.zoom == client.x - last.x
      && (r.positions[id].y - DragBase(v.positions, id).y) * v.zoom == client.y - last.y
      && r.lastDrag == Some(client)
  {
    if !Truthy(v.dragging) || v.lastDrag.None? then v
    else
      var id := v.dragging.value;
      var last := v.lastDrag.value;
      var current := DragBase(v.positions, id);
      var dx := (client.x - last.x) / v.zoom;
      var dy := (client.y - last.y) / v.zoom;
      DivMul(client.x - last.x, v.zoom);
      DivMul(client.y - last.y, v.zoom);
      v.(positions := v.positions[id := Point(current.x + dx, current.y + dy)], lastDrag := Some(client))
  }

  /** The first move of a node without an override gives it an override equal to the
      move's world delta, measured from the origin. */
  lemma FirstDragFromOrigin(v: View, client: Point)
    requires Truthy(v.dragging) && v.lastDrag.Some? && v.dragging.value !in v.positions
    ensures DragMove(v, client).positions[v.dragging.value]
      == Point((client.x - v.lastDrag.value.x) / v.zoom, (client.y - v.lastDrag.value.y) / v.zoom)
  {
  }

  /** A run of drag moves. */
  function DragMoves(v: View, pts: seq<Point>): View
    decreases |pts|
  {
    if |pts| == 0 then v else DragMoves(DragMove(v, pts[0]), pts[1..])
  }

  lemma DivSum(a: real, b: real, c: real, z: real)
    requires z > 0.0
    ensures (b - a) / z + (c - b) / z == (c - a) / z
  {
    DivMul(b - a, z);
    DivMul(c - b, z);
    DivMul(c - a, z);
  }

  /** A drag moves the node's override by the pointer's total displacement over the
      zoom, however it was split into moves, and leaves every other entry alone. */
  lemma {:induction false} DragMovesTotal(v: View, pts: seq<Point>)
    requires Truthy(v.dragging) && v.lastDrag.Some? && |pts| > 0
    ensures var r := DragMoves(v, pts);
      var id := v.dragging.value;
      var last := pts[|pts| - 1];
      var base := DragBase(v.positions, id);
      && r == v.(positions := r.positions, lastDrag := Some(last))
      && OnlyEntry(v.positions, r.positions, id)
      && r.positions[id] == Point(base.x + (last.x - v.lastDrag.value.x) / v.zoom,
                                  base.y + (last.y - v.lastDrag.value.y) / v.zoom)
    decreases |pts|
  {
    var id := v.dragging.value;
    var w := DragMove(v, pts[0]);
    var start := v.lastDrag.value;
    var base := DragBase(v.positions, id);
    assert w.positions[id] == Point(base.x + (pts[0].x - start.x) / v.zoom, base.y + (pts[0].y - start.y) / v.zoom);
    if |pts| > 1 {
      DragMovesTotal(w, pts[1..]);
      var last := pts[|pts| - 1];
      assert pts[1..][|pts| - 2] == last;
      assert DragBase(w.positions, id) == w.positions[id];
      DivSum(start.x, pts[0].x, last.x, v.zoom);
      DivSum(start.y, pts[0].y, last.y, v.zoom);
    }
  }

  /** `handleNodeDragEnd`: the overrides stay. */
  function DragEnd(v: View): (r: View)
    ensures r.dragging.None? && r.lastDrag.None?
    ensures r == v.(dragging := None, lastDrag := None)
  {
    v.(dragging := None, lastDrag := None)
  }

  // ---------------------------------------------------------------------------
  // Touch

  /** `handleTouchStart`: a one-finger touch starts a pan, even during a node drag. */
  function TouchStart(v: View, touches: seq<Point>): (r: View)
    ensures PanOnly(v, r) && r.panX == v.panX && r.panY == v.panY
    ensures |touches| == 1 ==> r.panning && r.lastPan == Some(touches[0])
    ensures |touches| != 1 ==> r == v
  {
    if |touches| == 1 then v.(lastPan := Some(touches[0]), panning := true) else v
  }

  /** `handleTouchMove`: a one-finger move pans like a mouse move. */
  function TouchMove(v: View, touches: seq<Point>): (r: View)
    ensures |touches| == 1 ==> r == PanMove(v, touches[0])
    ensures |touches| != 1 ==> r == v
  {
    if |touches| == 1 && v.panning && v.lastPan.Some? then
      var t := touches[0];
      var last := v.lastPan.value;
      v.(panX := v.panX + (t.x - last.x), panY := v.panY + (t.y - last.y), lastPan := Some(t))
    else v
  }

  /** `handleTouchEnd`. */
  function TouchEnd(v: View): (r: View)
    ensures r == PanEnd(v)
  {
    v.(panning := false, lastPan := None)
  }

  // ---------------------------------------------------------------------------
  // Auto-fit

  function Left(n: GraphNode): real { n.x - n.size / 2.0 }
  function Right(n: GraphNode): real { n.x + n.size / 2.0 }
  function Top(n: GraphNode): real { n.y - n.size / 2.0 }
  function Bottom(n: GraphNode): real { n.y + n.size / 2.0 }

  /** The bounding box of the nodes, each counted with its half-size around its centre. */
  datatype Box = Box(minX: real, maxX: real, minY: real, maxY: real)

  predicate Contains(b: Box, n: GraphNode) {
    b.minX <= Left(n) && Right(n) <= b.maxX && b.minY <= Top(n) && Bottom(n) <= b.maxY
  }

  /** The box the `forEach` loop computes, folded from the first node on. */
  function BoundingBox(ns: seq<GraphNode>): (b: Box)
    requires |ns| > 0
    ensures forall i :: 0 <= i < |ns| ==> Contains(b, ns[i])
  {
    var n := ns[|ns| - 1];
    if |ns| == 1 then Box(Left(n), Right(n), Top(n), Bottom(n))
    else
      var b := BoundingBox(ns[..|ns| - 1]);
      Box(Min(b.minX, Left(n)), Max(b.maxX, Right(n)), Min(b.minY, Top(n)), Max(b.maxY, Bottom(n)))
  }

  /** The box is the smallest one containing every node: each of its sides touches some node. */
  lemma {:induction false} BoundingBoxTight(ns: seq<GraphNode>)
    requires |ns| > 0
    ensures var b := BoundingBox(ns);
      && (exists i :: 0 <= i < |ns| && b.minX == Left(ns[i]))
      && (exists i :: 0 <= i < |ns| && b.maxX == Right(ns[i]))
      && (exists i :: 0 <= i < |ns| && b.minY == Top(ns[i]))
      && (exists i :: 0 <= i < |ns| && b.maxY == Bottom(ns[i]))
  {
    var last := |ns| - 1;
    if |ns| > 1 {
      var init := ns[..last];
      BoundingBoxTight(init);
      var b := BoundingBox(init);
      var i0 :| 0 <= i0 < |init| && b.minX == Left(init[i0]);
      var i1 :| 0 <= i1 < |init| && b.maxX == Right(init[i1]);
      var i2 :| 0 <= i2 < |init| && b.minY == Top(init[i2]);
      var i3 :| 0 <= i3 < |init| && b.maxY == Bottom(init[i3]);
      assert init[i0] == ns[i0] && init[i1] == ns[i1] && init[i2] == ns[i2] && init[i3] == ns[i3];
    } else {
      assert BoundingBox(ns).minX == Left(ns[0]);
    }
  }

  const DefaultPadding: real := 50.0

  /** The zoom auto-fit picks: the larger zoom at which the padded box fits both ways,
      clamped to the zoom range. */
  function FitZoom(b: Box, width: real, height: real, padding: real): (z: Zoom)
    requires b.maxX > b.minX && b.maxY > b.minY
    ensures MinZoom <= z <= MaxZoom
  {
    Clamp(UnclampedFit(b, width, height, padding), MinZoom, MaxZoom)
  }

  function Center(b: Box): Point {
    Point((b.minX + b.maxX) / 2.0, (b.minY + b.maxY) / 2.0)
  }

  /** The camera that fits a box of positive size: the zoom `FitZoom` picks, and the
      box's centre drawn at the viewport's centre. */
  function FitView(v: View, b: Box, width: real, height: real, padding: real): (r: View)
    requires b.maxX > b.minX && b.maxY > b.minY
    ensures CameraOnly(v, r) && ZoomInRange(r)
    ensures r.zoom == FitZoom(b, width, height, padding)
    ensures ToScreen(r, Center(b)) == Point(width / 2.0, height / 2.0)
  {
    var z := FitZoom(b, width, height, padding);
    v.(zoom := z, panX := CenteringPan(Center(b).x, z, width), panY := CenteringPan(Center(b).y, z, height))
  }

  /** `autoFitToViewport`: nothing happens for no nodes; otherwise the zoom fits the
      nodes' bounding box and the box's centre is drawn at the viewport's centre. Node
      sizes are positive, so the box has a positive width and height. */
  function AutoFit(v: View, ns: seq<GraphNode>, width: real, height: real, padding: Option<real>): (r: View)
    requires forall i :: 0 <= i < |ns| ==> ns[i].size > 0.0
    ensures CameraOnly(v, r)
    ensures |ns| == 0 ==> r == v
    ensures |ns| > 0 ==>
      && ZoomInRange(r)
      && r.zoom == Clamp(UnclampedFit(BoundingBox(ns), width, height, if padding.Some? then padding.value else DefaultPadding), MinZoom, MaxZoom)
      && ToScreen(r, Center(BoundingBox(ns))) == Point(width / 2.0, height / 2.0)
  {
    if |ns| == 0 then v
    else
      var b := BoundingBox(ns);
      assert Contains(b, ns[0]);
      FitView(v, b, width, height, if padding.Some? then padding.value else DefaultPadding)
  }

  /** Scaling a length by a zoom no larger than `room / length` fits it into `room`. */
  lemma FitsScaled(length: real, room: real, z: real)
    requires length > 0.0 && z > 0.0 && z <= room / length
    ensures length * z <= room
  {
    DivMul(room, length);
    assert length * z <= length * (room / length);
  }

  /** The node's box is drawn inside the viewport, at least `p` away from each edge. */
  predicate DrawnInside(r: View, n: GraphNode, width: real, height: real, p: real) {
    && p <= ToScreen(r, Point(Left(n), Top(n))).x
    && ToScreen(r, Point(Right(n), Bottom(n))).x <= width - p
    && p <= ToScreen(r, Point(Left(n), Top(n))).y
    && ToScreen(r, Point(Right(n), Bottom(n))).y <= height - p
  }

  /** The zoom at which the padded box exactly fits, before the clamp. */
  function UnclampedFit(b: Box, width: real, height: real, p: real): real
    requires b.maxX > b.minX && b.maxY > b.minY
  {
    Min((width - p * 2.0) / (b.maxX - b.minX), (height - p * 2.0) / (b.maxY - b.minY))
  }

  /** Unless the clamp raised the zoom, a fitted box draws every node it contains
      inside the padded viewport. */
  lemma FitViewFits(v: View, b: Box, width: real, height: real, p: real, n: GraphNode)
    requires b.maxX > b.minX && b.maxY > b.minY && Contains(b, n)
    requires UnclampedFit(b, width, height, p) >= MinZoom
    ensures DrawnInside(FitView(v, b, width, height, p), n, width, height, p)
  {
    var r := FitView(v, b, width, height, p);
    FitsScaled(b.maxX - b.minX, width - p * 2.0, r.zoom);
    FitsScaled(b.maxY - b.minY, height - p * 2.0, r.zoom);
    ScaledInside(b.minX, b.maxX, Left(n), Right(n), r.zoom, width, p);
    ScaledInside(b.minY, b.maxY, Top(n), Bottom(n), r.zoom, height, p);
  }

  /** Unless the clamp raised the zoom to its minimum, auto-fit draws every node's box
      inside the viewport, at least the padding away from each edge. */
  lemma AutoFitFits(v: View, ns: seq<GraphNode>, width: real, height: real, padding: Option<real>)
    requires forall k :: 0 <= k < |ns| ==> ns[k].size > 0.0
    requires |ns| > 0
    ensures var b := BoundingBox(ns);
      var p := if padding.Some? then padding.value else DefaultPadding;
      b.maxX > b.minX && b.maxY > b.minY &&
      (UnclampedFit(b, width, height, p) >= MinZoom ==>
        forall i :: 0 <= i < |ns| ==> DrawnInside(AutoFit(v, ns, width, height, padding), ns[i], width, height, p))
  {
    var b := BoundingBox(ns);
    assert Contains(b, ns[0]);
    var p := if padding.Some? then padding.value else DefaultPadding;
    if UnclampedFit(b, width, height, p) >= MinZoom {
      forall i | 0 <= i < |ns|
        ensures DrawnInside(AutoFit(v, ns, width, height, padding), ns[i], width, height, p)
      {
        FitViewFits(v, b, width, height, p, ns[i]);
      }
    }
  }

  /** One axis of the fit: an interval inside `[lo, hi]`, scaled by `z` about the centre of
      `[lo, hi]` placed at `extent / 2`, lands inside `[p, extent - p]`. */
  lemma ScaledInside(lo: real, hi: real, a: real, c: real, z: real, extent: real, p: real)
    requires lo <= a && c <= hi && z > 0.0
    requires (hi - lo) * z <= extent - p * 2.0
    ensures p <= Place(a, z, CenteringPan((lo + hi) / 2.0, z, extent))
    ensures Place(c, z, CenteringPan((lo + hi) / 2.0, z, extent)) <= extent - p
  {
    assert a * z >= lo * z;
    assert c * z <= hi * z;
  }

  // ---------------------------------------------------------------------------
  // Every handler

  /** One call into the hook, by handler. */
  datatype Event =
    | OnPanStart(client: Point)
    | OnPanMove(client: Point)
    | OnPanEnd
    | OnWheel(rect: Rect, client: Point, deltaY: real)
    | OnHover(hoveredId: Option<string>)
    | OnClick(id: string)
    | OnDragStart(id: string, client: Point)
    | OnDragMove(client: Point)
    | OnDragEnd
    | OnDoubleClick
    | OnTouchStart(touches: seq<Point>)
    | OnTouchMove(touches: seq<Point>)
    | OnTouchEnd
    | OnZoomIn(center: Point)
    | OnZoomOut(center: Point)
    | OnCenter(world: Point, width: real, height: real)
    | OnAutoFit(nodes: seq<GraphNode>, width: real, height: real, padding: Option<real>)

  /** Auto-fit is only asked to fit nodes of positive size. */
  predicate Allowed(e: Event) {
    e.OnAutoFit? ==> forall i :: 0 <= i < |e.nodes| ==> e.nodes[i].size > 0.0
  }

  function Step(v: View, e: Event): (r: View)
    requires Allowed(e)
    ensures !e.OnDragMove? ==> r.positions == v.positions
    ensures v.positions.Keys <= r.positions.Keys
  {
    match e
    case OnPanStart(c) => PanStart(v, c)
    case OnPanMove(c) => PanMove(v, c)
    case OnPanEnd => PanEnd(v)
    case OnWheel(rect, c, dy) => Wheel(v, rect, c, dy)
    case OnHover(id) => Hover(v, id)
    case OnClick(id) => Click(v, id)
    case OnDragStart(id, c) => DragStart(v, id, c)
    case OnDragMove(c) => DragMove(v, c)
    case OnDragEnd => DragEnd(v)
    case OnDoubleClick => DoubleClick(v)
    case OnTouchStart(ts) => TouchStart(v, ts)
    case OnTouchMove(ts) => TouchMove(v, ts)
    case OnTouchEnd => TouchEnd(v)
    case OnZoomIn(c) => ZoomIn(v, c)
    case OnZoomOut(c) => ZoomOut(v, c)
    case OnCenter(w, width, height) => CenterOn(v, w, width, height)
    case OnAutoFit(ns, width, height, padding) => AutoFit(v, ns, width, height, padding)
  }

  function Run(v: View, es: seq<Event>): View
    requires forall i :: 0 <= i < |es| ==> Allowed(es[i])
    decreases |es|
  {
    if |es| == 0 then v else Run(Step(v, es[0]), es[1..])
  }

  /** No handler takes the zoom out of its range. */
  lemma StepKeepsZoomInRange(v: View, e: Event)
    requires Allowed(e) && ZoomInRange(v)
    ensures ZoomInRange(Step(v, e))
  {
  }

  /** From the initial state, the zoom stays in its range and no position override is
      ever removed, whatever the user does. */
  lemma {:induction false} RunKeepsInvariants(v: View, es: seq<Event>)
    requires forall i :: 0 <= i < |es| ==> Allowed(es[i])
    requires ZoomInRange(v)
    ensures ZoomInRange(Run(v, es))
    ensures v.positions.Keys <= Run(v, es).positions.Keys
    decreases |es|
  {
    if |es| > 0 {
      StepKeepsZoomInRange(v, es[0]);
      RunKeepsInvariants(Step(v, es[0]), es[1..]);
    }
  }
}
