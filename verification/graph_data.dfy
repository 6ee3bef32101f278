/** The body of `useGraphData` (`src/components/graph/hooks/use-graph-data.ts`) as a
    pure function from the memories and the view state to a node and edge list: one
    video node, one category node per category on a circle around it, the sentences on
    spirals around their category, the structural edges, the similarity edges, the
    search-highlight edges, and finally collision avoidance among the sentences. */
module GraphData {
  import opened Base
  import opened Text
  import opened Seqs
  import opened GraphTypes
  import opened Constants
  import Similarity
  import Collision

  /** The arguments of `useGraphData`. */
  datatype GraphInput = GraphInput(
    memories: seq<VectorMemory>,
    videoId: string,
    indexId: string,
    nodePositions: map<string, Point>,
    draggingNodeId: Option<string>,
    searchQuery: Option<string>,
    filterCategory: Option<string>)

  // ---------------------------------------------------------------------------
  // Filtering and grouping

  /** `memory.metadata?.category`. */
  function CategoryOf(m: VectorMemory): Option<string> {
    if m.metadata.Some? then m.metadata.value.category else None
  }

  /** The category filter: with a non-empty filter only memories whose own category is
      exactly the filter survive, in their original order. */
  function FilterMemories(ms: seq<VectorMemory>, filter: Option<string>): (r: seq<VectorMemory>)
    ensures !Truthy(filter) ==> r == ms
    ensures Truthy(filter) ==> forall m :: m in r <==> m in ms && CategoryOf(m) == filter
    ensures multiset(r) <= multiset(ms)
  {
    if Truthy(filter) then Select(ms, CategoryOf, filter) else ms
  }

  /** `filter` works memory by memory: the filter of a concatenation is the concatenation
      of the filters, so the survivors keep their order; a single memory survives exactly
      when there is no filter or its category is the filter. */
  lemma FilterMemoriesAppend(a: seq<VectorMemory>, b: seq<VectorMemory>, filter: Option<string>)
    ensures FilterMemories(a + b, filter) == FilterMemories(a, filter) + FilterMemories(b, filter)
    ensures forall m :: FilterMemories([m], filter) == if !Truthy(filter) || CategoryOf(m) == filter then [m] else []
  {
    if Truthy(filter) {
      SelectAppend(a, b, CategoryOf, filter);
    }
    forall m | Truthy(filter) && CategoryOf(m) != filter
      ensures FilterMemories([m], filter) == []
    {
      assert [m] == [] + [m];
      SelectSnocOther([], m, CategoryOf, filter);
    }
  }

  /** Every copy of a surviving memory survives. */
  lemma FilterMemoriesCounts(ms: seq<VectorMemory>, filter: Option<string>, m: VectorMemory)
    ensures multiset(FilterMemories(ms, filter))[m] ==
      if !Truthy(filter) || CategoryOf(m) == filter then multiset(ms)[m] else 0
  {
    if Truthy(filter) {
      SelectCount(ms, CategoryOf, filter, m);
    }
  }

  /** `metadata?.category || 'description'`: the category a memory is grouped and drawn under. */
  function GroupKey(m: VectorMemory): string {
    if Truthy(CategoryOf(m)) then CategoryOf(m).value else "description"
  }

  /** The grouping key and the filter disagree about memories without a category: such a
      memory is grouped under `description`, yet a `description` filter drops it. */
  lemma DescriptionFilterMismatch(m: VectorMemory)
    requires CategoryOf(m).None?
    ensures GroupKey(m) == "description"
    ensures m !in FilterMemories([m], Some("description"))
  {
  }

  /** `nodePositions.get(id)?.x ?? computed.x`, and likewise for y. */
  function Placed(positions: map<string, Point>, id: string, computed: Point): Point {
    if id in positions then positions[id] else computed
  }

  // ---------------------------------------------------------------------------
  // The video node

  function VideoNodeId(videoId: string): string {
    "video-" + videoId
  }

  function BuildVideoNode(input: GraphInput, total: nat): GraphNode {
    var id := VideoNodeId(input.videoId);
    var p := Placed(input.nodePositions, id, Point(CenterX, CenterY));
    GraphNode(id, VideoNode, p.x, p.y,
      VideoNodeData(id, input.videoId, input.indexId, "Video Analysis", total),
      VideoNodeSize, NodeColor("video", None), false, input.draggingNodeId == Some(id))
  }

  // ---------------------------------------------------------------------------
  // Category nodes and video-to-category edges

  function CategoryNodeId(category: string): string {
    "category-" + category
  }

  /** The angle of the `k`th of `count` category nodes: equal steps around the circle. */
  function CategoryAngle(k: nat, count: nat): real
    requires count > 0
  {
    (k as real / count as real) * PI * 2.0
  }

  function BuildCategoryNode(g: Bucket<string, VectorMemory>, k: nat, count: nat, video: GraphNode,
                             input: GraphInput, rt: Runtime): GraphNode
    requires k < count
  {
    var id := CategoryNodeId(g.key);
    var angle := CategoryAngle(k, count);
    var computed := Point(video.x + rt.cos(angle) * CategoryClusterRadius,
                          video.y + rt.sin(angle) * CategoryClusterRadius);
    var p := Placed(input.nodePositions, id, computed);
    GraphNode(id, CategoryNode, p.x, p.y,
      CategoryNodeData(id, g.key, |g.items|, input.videoId, input.indexId),
      CategoryNodeSize, NodeColor("sentence", Some(g.key)), false, input.draggingNodeId == Some(id))
  }

  /** One category node per group, in the groups' order. */
  function CategoryNodes(groups: seq<Bucket<string, VectorMemory>>, video: GraphNode,
                         input: GraphInput, rt: Runtime): seq<GraphNode>
  {
    seq(|groups|, k requires 0 <= k < |groups| => BuildCategoryNode(groups[k], k, |groups|, video, input, rt))
  }

  /** The weight of a video-to-category edge: the category's size over ten, capped at one. */
  function CategoryWeight(size: nat): (w: real)
    ensures 0.0 <= w <= 1.0
    ensures w == 1.0 <==> size >= 10
    ensures size < 10 ==> w * 10.0 == size as real
  {
    Min(size as real / 10.0, 1.0)
  }

  /** The share of the surviving memories that a category holds. */
  function Share(size: nat, total: nat): (s: real)
    requires total > 0
    ensures s * total as real == size as real
  {
    size as real / total as real
  }

  /** The edge from the video node to a category node: its weight grows with the
      category's size and saturates at ten memories. */
  function VideoCategoryEdge(g: Bucket<string, VectorMemory>, videoNodeId: string, total: nat): GraphEdge
    requires total > 0
  {
    var weight := CategoryWeight(|g.items|);
    GraphEdge("video-category-" + g.key, videoNodeId, CategoryNodeId(g.key), weight,
      ConnectionVisualProps(weight), EdgeColor(VideoCategoryKey, weight), VideoCategory,
      EdgeMetadata(Some(g.key), Some(Share(|g.items|, total)), None))
  }

  function CategoryEdges(groups: seq<Bucket<string, VectorMemory>>, videoNodeId: string, total: nat): seq<GraphEdge>
    requires total > 0 || |groups| == 0
  {
    seq(|groups|, k requires 0 <= k < |groups| => VideoCategoryEdge(groups[k], videoNodeId, total))
  }

  // ---------------------------------------------------------------------------
  // Sentence nodes and category-to-sentence edges

  predicate IsCategoryFor(n: GraphNode, category: string) {
    n.data.CategoryNodeData? && n.data.category == category
  }

  /** `categoryNodes.find(...)`: the first category node of the category, if any. */
  function FindCategoryNode(hubs: seq<GraphNode>, category: string): (r: Option<GraphNode>)
    ensures r.Some? ==> r.value in hubs && IsCategoryFor(r.value, category)
    ensures r.None? ==> forall h :: h in hubs ==> !IsCategoryFor(h, category)
  {
    if |hubs| == 0 then None
    else if IsCategoryFor(hubs[0], category) then Some(hubs[0])
    else FindCategoryNode(hubs[1..], category)
  }

  /** `metadata?.importance || memory.confidence || 0.5`: a zero or missing importance
      falls through to the confidence, and a zero or missing confidence to 0.5. */
  function Importance(m: VectorMemory): (w: real)
    ensures w != 0.0
    ensures m.metadata.Some? && TruthyReal(m.metadata.value.importance) ==> w == m.metadata.value.importance.value
  {
    var importance := if m.metadata.Some? then m.metadata.value.importance else None;
    if TruthyReal(importance) then importance.value
    else if TruthyReal(m.confidence) then m.confidence.value
    else 0.5
  }

  /** An importance of 0 counts as missing. */
  lemma ImportanceZeroFallsThrough(m: VectorMemory)
    requires m.metadata.Some? && m.metadata.value.importance == Some(0.0)
    ensures TruthyReal(m.confidence) ==> Importance(m) == m.confidence.value
    ensures !TruthyReal(m.confidence) ==> Importance(m) == 0.5
  {
  }

  /** The spiral angle of the `idx`th of `count` sentences: two full turns in equal steps. */
  function SpiralAngle(idx: nat, count: nat): real
    requires count > 0
  {
    (idx as real / count as real) * PI * 4.0
  }

  /** The spiral radius cycles through three rings of 60, 120 and 180. */
  function SpiralRadius(idx: nat): (r: real)
    ensures idx % 3 == 0 ==> r == 60.0
    ensures idx % 3 == 1 ==> r == 120.0
    ensures idx % 3 == 2 ==> r == 180.0
  {
    SentenceClusterRadius * (0.3 + (idx % 3) as real * 0.3)
  }

  function BuildSentenceNode(m: VectorMemory, idx: nat, count: nat, category: string, hub: GraphNode,
                             input: GraphInput, rt: Runtime): (n: GraphNode)
    requires idx < count
    ensures IsSentenceNodeFor(n, m, input)
  {
    var angle := SpiralAngle(idx, count);
    var radius := SpiralRadius(idx);
    var computed := Point(hub.x + rt.cos(angle) * radius, hub.y + rt.sin(angle) * radius);
    var p := Placed(input.nodePositions, m.id, computed);
    GraphNode(m.id, SentenceNode, p.x, p.y, MemoryNodeData(m),
      SentenceSize(m.sentence, Importance(m)), NodeColor("sentence", Some(category)),
      false, input.draggingNodeId == Some(m.id))
  }

  function CategorySentenceEdge(m: VectorMemory, category: string, hub: GraphNode): GraphEdge
  {
    var importance := Importance(m);
    GraphEdge("category-sentence-" + hub.id + "-" + m.id, hub.id, m.id, importance,
      ConnectionVisualProps(importance), EdgeColor(CategorySentenceKey, importance), CategorySentence,
      EdgeMetadata(Some(category), Some(importance), if m.metadata.Some? then m.metadata.value.timestamp else None))
  }

  /** The sentence nodes of one group, on a spiral around the group's category node. */
  function GroupSentenceNodes(g: Bucket<string, VectorMemory>, hub: GraphNode, input: GraphInput, rt: Runtime): (ns: seq<GraphNode>)
    ensures |ns| == |g.items|
    ensures forall i :: 0 <= i < |ns| ==> IsSentenceNodeFor(ns[i], g.items[i], input)
  {
    seq(|g.items|, idx requires 0 <= idx < |g.items| => BuildSentenceNode(g.items[idx], idx, |g.items|, g.key, hub, input, rt))
  }

  function GroupSentenceEdges(g: Bucket<string, VectorMemory>, hub: GraphNode): (es: seq<GraphEdge>)
    ensures |es| == |g.items|
    ensures forall i :: 0 <= i < |es| ==> IsSentenceEdgeFor(es[i], g.items[i], hub.id)
  {
    seq(|g.items|, idx requires 0 <= idx < |g.items| => CategorySentenceEdge(g.items[idx], g.key, hub))
  }

  /** The memories that get a sentence node, in drawing order: group after group, skipping
      a group whose category node cannot be found. */
  function SentenceMemories(groups: seq<Bucket<string, VectorMemory>>, hubs: seq<GraphNode>): seq<VectorMemory>
  {
    if |groups| == 0 then []
    else
      (if FindCategoryNode(hubs, groups[0].key).Some? then groups[0].items else [])
      + SentenceMemories(groups[1..], hubs)
  }

  /** A node drawn for memory `m`: its id and data are the memory's, it is a sentence
      node of sentence size, it sits on its explicit position when it has one, it is not
      hovered, and it is dragged exactly when its id is the dragged one. */
  predicate IsSentenceNodeFor(n: GraphNode, m: VectorMemory, input: GraphInput) {
    && n.id == m.id
    && n.nodeType == SentenceNode
    && n.data == MemoryNodeData(m)
    && SentenceSmall <= n.size <= SentenceLarge
    && (m.id in input.nodePositions ==> Point(n.x, n.y) == input.nodePositions[m.id])
    && !n.isHovered
    && n.isDragging == (input.draggingNodeId == Some(n.id))
  }

  /** The sentence nodes of all groups, one per memory of `SentenceMemories`, in that order. */
  function SentenceNodes(groups: seq<Bucket<string, VectorMemory>>, hubs: seq<GraphNode>,
                         input: GraphInput, rt: Runtime): (ns: seq<GraphNode>)
    ensures |ns| == |SentenceMemories(groups, hubs)|
    ensures forall i :: 0 <= i < |ns| ==> IsSentenceNodeFor(ns[i], SentenceMemories(groups, hubs)[i], input)
  {
    if |groups| == 0 then []
    else
      var found := FindCategoryNode(hubs, groups[0].key);
      var here := if found.None? then [] else GroupSentenceNodes(groups[0], found.value, input, rt);
      var rest := SentenceNodes(groups[1..], hubs, input, rt);
      var hereMs := if found.None? then [] else groups[0].items;
      var restMs := SentenceMemories(groups[1..], hubs);
      assert SentenceMemories(groups, hubs) == hereMs + restMs;
      assert forall i :: 0 <= i < |here| ==> IsSentenceNodeFor(here[i], hereMs[i], input);
      assert forall i :: 0 <= i < |rest| ==> IsSentenceNodeFor(rest[i], restMs[i], input);
      ZipAppend(here, rest, hereMs, restMs, input);
      here + rest
  }

  /** Pointwise sentence nodes laid end to end stay pointwise. */
  lemma ZipAppend(a: seq<GraphNode>, b: seq<GraphNode>, x: seq<VectorMemory>, y: seq<VectorMemory>, input: GraphInput)
    requires |a| == |x| && |b| == |y|
    requires forall i :: 0 <= i < |a| ==> IsSentenceNodeFor(a[i], x[i], input)
    requires forall i :: 0 <= i < |b| ==> IsSentenceNodeFor(b[i], y[i], input)
    ensures forall i :: 0 <= i < |a + b| ==> IsSentenceNodeFor((a + b)[i], (x + y)[i], input)
  {
    forall i | 0 <= i < |a + b|
      ensures IsSentenceNodeFor((a + b)[i], (x + y)[i], input)
    {
      if i >= |a| {
        assert (a + b)[i] == b[i - |a|] && (x + y)[i] == y[i - |a|];
      }
    }
  }

  /** An edge drawn for memory `m` from the category node `source`: it ends at the memory,
      is a category-to-sentence edge, and is weighted by the memory's importance. */
  predicate IsSentenceEdgeFor(e: GraphEdge, m: VectorMemory, source: string) {
    && e.source == source && e.target == m.id
    && e.edgeType == CategorySentence && e.similarity == Importance(m)
  }

  /** An edge from some category node of `hubs` for memory `m`. */
  predicate IsHubEdgeFor(e: GraphEdge, m: VectorMemory, hubs: seq<GraphNode>) {
    IsSentenceEdgeFor(e, m, e.source) && e.source in NodeIds(hubs)
  }

  /** One category-to-sentence edge per memory of `SentenceMemories`, from a category node
      to the memory, weighted by the memory's importance. */
  function SentenceEdges(groups: seq<Bucket<string, VectorMemory>>, hubs: seq<GraphNode>): (es: seq<GraphEdge>)
    ensures |es| == |SentenceMemories(groups, hubs)|
    ensures forall i :: 0 <= i < |es| ==>
      var m := SentenceMemories(groups, hubs)[i];
      && es[i].target == m.id && es[i].source in NodeIds(hubs)
      && es[i].edgeType == CategorySentence && es[i].similarity == Importance(m)
  {
    if |groups| == 0 then []
    else
      var found := FindCategoryNode(hubs, groups[0].key);
      var here := if found.None? then [] else GroupSentenceEdges(groups[0], found.value);
      var rest := SentenceEdges(groups[1..], hubs);
      var hereMs := if found.None? then [] else groups[0].items;
      var restMs := SentenceMemories(groups[1..], hubs);
      assert SentenceMemories(groups, hubs) == hereMs + restMs;
      assert forall i :: 0 <= i < |here| ==> IsHubEdgeFor(here[i], hereMs[i], hubs) by {
        if found.Some? {
          var hub := found.value;
          var k :| 0 <= k < |hubs| && hubs[k] == hub;
          assert NodeIds(hubs)[k] == hub.id;
        }
      }
      assert forall i :: 0 <= i < |rest| ==> IsHubEdgeFor(rest[i], restMs[i], hubs);
      EdgeZipAppend(here, rest, hereMs, restMs, hubs);
      here + rest
  }

  /** Pointwise hub edges laid end to end stay pointwise. */
  lemma EdgeZipAppend(a: seq<GraphEdge>, b: seq<GraphEdge>, x: seq<VectorMemory>, y: seq<VectorMemory>, hubs: seq<GraphNode>)
    requires |a| == |x| && |b| == |y|
    requires forall i :: 0 <= i < |a| ==> IsHubEdgeFor(a[i], x[i], hubs)
    requires forall i :: 0 <= i < |b| ==> IsHubEdgeFor(b[i], y[i], hubs)
    ensures forall i :: 0 <= i < |a + b| ==> IsHubEdgeFor((a + b)[i], (x + y)[i], hubs)
  {
    forall i | 0 <= i < |a + b|
      ensures IsHubEdgeFor((a + b)[i], (x + y)[i], hubs)
    {
      if i >= |a| {
        assert (a + b)[i] == b[i - |a|] && (x + y)[i] == y[i - |a|];
      }
    }
  }

  // ---------------------------------------------------------------------------
  // Similarity edges

  /** The strict threshold a pair's combined similarity must exceed to be linked. */
  predicate Linked(a: VectorMemory, b: VectorMemory, rt: Runtime) {
    Similarity.CombinedSimilarity(a, b, rt) > MinSimilarityThreshold
  }

  function SimilarityEdge(a: VectorMemory, b: VectorMemory, rt: Runtime): GraphEdge
  {
    var s := Similarity.CombinedSimilarity(a, b, rt);
    GraphEdge("similarity-" + a.id + "-" + b.id, a.id, b.id, s,
      ConnectionVisualProps(s), EdgeColor(SentenceSentenceKey, s), SentenceSentence,
      EdgeMetadata(None, Some(s), None))
  }

  /** `e` is the similarity edge of the pair at positions `i < j`. */
  predicate PairEdge(ms: seq<VectorMemory>, i: int, j: int, e: GraphEdge, rt: Runtime) {
    0 <= i < j < |ms| && Linked(ms[i], ms[j], rt) && e == SimilarityEdge(ms[i], ms[j], rt)
  }

  /** The inner loop for sentence `i`, partners from `j` on: at most one edge per
      partner, each a similarity edge. */
  function RowEdges(ms: seq<VectorMemory>, i: nat, j: nat, rt: Runtime): (es: seq<GraphEdge>)
    requires i < j <= |ms|
    ensures |es| <= |ms| - j
    ensures forall k :: 0 <= k < |es| ==> es[k].edgeType == SentenceSentence
    decreases |ms| - j
  {
    if j == |ms| then []
    else
      var rest := RowEdges(ms, i, j + 1, rt);
      var here := if Linked(ms[i], ms[j], rt) then [SimilarityEdge(ms[i], ms[j], rt)] else [];
      here + rest
  }

  /** The row from `j` holds exactly the edges of the linked pairs `(i, k)` with `k >= j`. */
  ghost predicate RowExact(ms: seq<VectorMemory>, i: nat, j: nat, rt: Runtime)
    requires i < j <= |ms|
  {
    forall e :: e in RowEdges(ms, i, j, rt) <==> exists k :: j <= k < |ms| && PairEdge(ms, i, k, e, rt)
  }

  /** The inner loop yields exactly the edges of the linked pairs `(i, k)` with `k >= j`. */
  lemma {:induction false} RowEdgesMembers(ms: seq<VectorMemory>, i: nat, j: nat, rt: Runtime)
    requires i < j <= |ms|
    ensures RowExact(ms, i, j, rt)
    decreases |ms| - j
  {
    if j < |ms| {
      RowEdgesMembers(ms, i, j + 1, rt);
      RowEdgesNext(ms, i, j, rt);
    } else {
      RowEdgesEnd(ms, i, rt);
    }
  }

  /** Past the last partner the row is empty, and so is the set of pairs. */
  lemma RowEdgesEnd(ms: seq<VectorMemory>, i: nat, rt: Runtime)
    requires i < |ms|
    ensures RowExact(ms, i, |ms|, rt)
  {
  }

  /** The induction step of `RowEdgesMembers`: from the partners after `j` to those from `j`. */
  lemma RowEdgesNext(ms: seq<VectorMemory>, i: nat, j: nat, rt: Runtime)
    requires i < j < |ms|
    requires RowExact(ms, i, j + 1, rt)
    ensures RowExact(ms, i, j, rt)
  {
    var here := if Linked(ms[i], ms[j], rt) then [SimilarityEdge(ms[i], ms[j], rt)] else [];
    RowEdgesStep(ms, i, j, rt);
    RowEdgesCons(ms, i, j, rt, here, RowEdges(ms, i, j + 1, rt));
  }

  /** One step of the inner loop: the pair at `j`, if linked, then the rest of the row. */
  lemma RowEdgesStep(ms: seq<VectorMemory>, i: nat, j: nat, rt: Runtime)
    requires i < j < |ms|
    ensures RowEdges(ms, i, j, rt) == (if Linked(ms[i], ms[j], rt) then [SimilarityEdge(ms[i], ms[j], rt)] else []) + RowEdges(ms, i, j + 1, rt)
  {
  }

  lemma RowEdgesCons(ms: seq<VectorMemory>, i: nat, j: nat, rt: Runtime, here: seq<GraphEdge>, rest: seq<GraphEdge>)
    requires i < j < |ms|
    requires here == if Linked(ms[i], ms[j], rt) then [SimilarityEdge(ms[i], ms[j], rt)] else []
    requires forall e :: e in rest <==> exists k :: j + 1 <= k < |ms| && PairEdge(ms, i, k, e, rt)
    ensures forall e :: e in here + rest <==> exists k :: j <= k < |ms| && PairEdge(ms, i, k, e, rt)
  {
    forall e | e in here + rest ensures exists k :: j <= k < |ms| && PairEdge(ms, i, k, e, rt) {
      if e in here {
        assert PairEdge(ms, i, j, e, rt);
      }
    }
    forall e | exists k :: j <= k < |ms| && PairEdge(ms, i, k, e, rt) ensures e in here + rest {
      var k :| j <= k < |ms| && PairEdge(ms, i, k, e, rt);
      if k == j {
        assert e in here;
      } else {
        assert e in rest;
      }
    }
  }

  /** The outer loop, sentences from `i` on: only similarity edges. */
  function SimilarityEdges(ms: seq<VectorMemory>, i: nat, rt: Runtime): (es: seq<GraphEdge>)
    requires i <= |ms|
    ensures forall k :: 0 <= k < |es| ==> es[k].edgeType == SentenceSentence
    decreases |ms| - i
  {
    if i + 1 >= |ms| then []
    else RowEdges(ms, i, i + 1, rt) + SimilarityEdges(ms, i + 1, rt)
  }

  /** The outer loop yields exactly the edges of the linked pairs `p < q` with `p >= i`. */
  lemma {:induction false} SimilarityEdgesMembers(ms: seq<VectorMemory>, i: nat, rt: Runtime)
    requires i <= |ms|
    ensures forall e :: e in SimilarityEdges(ms, i, rt) <==> exists p, q :: i <= p && PairEdge(ms, p, q, e, rt)
    decreases |ms| - i
  {
    if i + 1 >= |ms| {
      assert forall e, p, q :: i <= p && PairEdge(ms, p, q, e, rt) ==> false;
    } else {
      SimilarityEdgesMembers(ms, i + 1, rt);
      RowEdgesMembers(ms, i, i + 1, rt);
      var row := RowEdges(ms, i, i + 1, rt);
      var rest := SimilarityEdges(ms, i + 1, rt);
      assert SimilarityEdges(ms, i, rt) == row + rest;
      SimilarityEdgesCons(ms, i, rt, row, rest);
    }
  }

  /** One more sentence row joins the pairs that start at that sentence to those after it. */
  /** The ends of the similarity edges of `es`, in order. */
  function SentencePairs(es: seq<GraphEdge>): seq<(string, string)>
  {
    if |es| == 0 then []
    else (if es[0].edgeType == SentenceSentence then [(es[0].source, es[0].target)] else []) + SentencePairs(es[1..])
  }

  lemma {:induction false} SentencePairsAppend(a: seq<GraphEdge>, b: seq<GraphEdge>)
    ensures SentencePairs(a + b) == SentencePairs(a) + SentencePairs(b)
  {
    if |a| == 0 {
      assert a + b == b;
    } else {
      var head := if a[0].edgeType == SentenceSentence then [(a[0].source, a[0].target)] else [];
      assert (a + b)[0] == a[0];
      assert (a + b)[1..] == a[1..] + b;
      SentencePairsAppend(a[1..], b);
      calc {
        SentencePairs(a + b);
        head + SentencePairs(a[1..] + b);
        head + (SentencePairs(a[1..]) + SentencePairs(b));
        (head + SentencePairs(a[1..])) + SentencePairs(b);
        SentencePairs(a) + SentencePairs(b);
      }
    }
  }

  /** The number of similarity edges from `source` to `target`. */
  function PairCount(es: seq<GraphEdge>, source: string, target: string): nat
  {
    Count(SentencePairs(es), (source, target))
  }

  /** Whether the sentences at two positions are linked; false off the end. */
  function LinkedAt(ms: seq<VectorMemory>, rt: Runtime): (nat, nat) -> bool
  {
    (a: nat, b: nat) => a < |ms| && b < |ms| && Linked(ms[a], ms[b], rt)
  }

  /** The ends the inner loop for position `i` adds from partner `j` on, for sentences
      with ids `ids` linked as `link` says. */
  function RowPairs<T>(ids: seq<T>, link: (nat, nat) -> bool, i: nat, j: nat): seq<(T, T)>
    requires i < j <= |ids|
    decreases |ids| - j
  {
    if j == |ids| then []
    else (if link(i, j) then [(ids[i], ids[j])] else []) + RowPairs(ids, link, i, j + 1)
  }

  /** The ends the outer loop adds from position `i` on. */
  function SimilarityPairs<T>(ids: seq<T>, link: (nat, nat) -> bool, i: nat): seq<(T, T)>
    requires i <= |ids|
    decreases |ids| - i
  {
    if i + 1 >= |ids| then [] else RowPairs(ids, link, i, i + 1) + SimilarityPairs(ids, link, i + 1)
  }

  /** The similarity edge the inner loop may add for the pair `(i, j)` contributes that
      pair's ids when the pair is linked, and nothing otherwise. */
  lemma LinkedPair(ms: seq<VectorMemory>, i: nat, j: nat, rt: Runtime)
    requires i < j < |ms|
    ensures SentencePairs(if Linked(ms[i], ms[j], rt) then [SimilarityEdge(ms[i], ms[j], rt)] else [])
      == if LinkedAt(ms, rt)(i, j) then [(MemoryIds(ms)[i], MemoryIds(ms)[j])] else []
  {
    var here := if Linked(ms[i], ms[j], rt) then [SimilarityEdge(ms[i], ms[j], rt)] else [];
    if |here| == 1 {
      assert here[1..] == [];
    }
  }

  /** The inner loop's edges have exactly the ends of the linked pairs `(i, k)`, `k >= j`,
      in loop order. */
  lemma {:induction false} RowEdgesPairs(ms: seq<VectorMemory>, i: nat, j: nat, rt: Runtime)
    requires i < j <= |ms|
    ensures SentencePairs(RowEdges(ms, i, j, rt)) == RowPairs(MemoryIds(ms), LinkedAt(ms, rt), i, j)
    decreases |ms| - j
  {
    hide Linked, SimilarityEdge;
    if j < |ms| {
      RowEdgesPairs(ms, i, j + 1, rt);
      var ids := MemoryIds(ms);
      var link := LinkedAt(ms, rt);
      var rest := RowEdges(ms, i, j + 1, rt);
      var here := if Linked(ms[i], ms[j], rt) then [SimilarityEdge(ms[i], ms[j], rt)] else [];
      LinkedPair(ms, i, j, rt);
      var pair := if link(i, j) then [(ids[i], ids[j])] else [];
      assert RowEdges(ms, i, j, rt) == here + rest;
      assert RowPairs(ids, link, i, j) == pair + RowPairs(ids, link, i, j + 1);
      SentencePairsAppend(here, rest);
    } else {
      assert RowEdges(ms, i, j, rt) == [];
    }
  }

  /** The similarity edges' ends are exactly the linked pairs' ids, in loop order. */
  lemma {:induction false} SimilarityEdgesPairs(ms: seq<VectorMemory>, i: nat, rt: Runtime)
    requires i <= |ms|
    ensures SentencePairs(SimilarityEdges(ms, i, rt)) == SimilarityPairs(MemoryIds(ms), LinkedAt(ms, rt), i)
    decreases |ms| - i
  {
    hide Linked, SimilarityEdge;
    if i + 1 < |ms| {
      assert SimilarityEdges(ms, i, rt) == RowEdges(ms, i, i + 1, rt) + SimilarityEdges(ms, i + 1, rt);
      SentencePairsAppend(RowEdges(ms, i, i + 1, rt), SimilarityEdges(ms, i + 1, rt));
      RowEdgesPairs(ms, i, i + 1, rt);
      SimilarityEdgesPairs(ms, i + 1, rt);
    }
  }

  /** With distinct ids, the row of position `i` from partner `j` on has the ends of
      positions `p` and `q` once when that is the linked pair `(i, q)` with `q >= j`, and
      not at all otherwise. */
  lemma {:induction false} RowPairsCount<T>(ids: seq<T>, link: (nat, nat) -> bool, i: nat, j: nat, p: nat, q: nat)
    requires Distinct(ids)
    requires i < j <= |ids| && p < |ids| && q < |ids|
    ensures Count(RowPairs(ids, link, i, j), (ids[p], ids[q]))
      == if p == i && j <= q && link(p, q) then 1 else 0
    decreases |ids| - j
  {
    if j < |ids| {
      var x := (ids[p], ids[q]);
      var here := if link(i, j) then [(ids[i], ids[j])] else [];
      var rest := RowPairs(ids, link, i, j + 1);
      RowPairsCount(ids, link, i, j + 1, p, q);
      assert Count(here, x) == if p == i && q == j && link(p, q) then 1 else 0 by {
        if |here| == 1 {
          assert here[1..] == [];
        }
      }
      assert RowPairs(ids, link, i, j) == here + rest;
      CountAppend(here, rest, x);
    }
  }

  /** With distinct ids, the outer loop from position `i` on has the ends of positions
      `p` and `q` once when `i <= p < q` and the pair is linked, and not at all otherwise:
      in particular never from a later sentence to an earlier one. */
  lemma {:induction false} SimilarityPairsCount<T>(ids: seq<T>, link: (nat, nat) -> bool, i: nat, p: nat, q: nat)
    requires Distinct(ids)
    requires i <= |ids| && p < |ids| && q < |ids|
    ensures Count(SimilarityPairs(ids, link, i), (ids[p], ids[q]))
      == if i <= p < q && link(p, q) then 1 else 0
    decreases |ids| - i
  {
    if i + 1 < |ids| {
      var x := (ids[p], ids[q]);
      var row := RowPairs(ids, link, i, i + 1);
      var rest := SimilarityPairs(ids, link, i + 1);
      SimilarityPairsCount(ids, link, i + 1, p, q);
      RowPairsCount(ids, link, i, i + 1, p, q);
      assert SimilarityPairs(ids, link, i) == row + rest;
      CountAppend(row, rest, x);
    }
  }

  /** With distinct ids, the outer loop makes exactly one similarity edge from the `p`-th
      to the `q`-th sentence when `p < q` and the pair is linked, and none otherwise. */
  lemma SimilarityEdgesCount(ms: seq<VectorMemory>, rt: Runtime, p: nat, q: nat)
    requires Distinct(MemoryIds(ms))
    requires p < |ms| && q < |ms|
    ensures PairCount(SimilarityEdges(ms, 0, rt), ms[p].id, ms[q].id)
      == if p < q && Linked(ms[p], ms[q], rt) then 1 else 0
  {
    hide Linked, SimilarityEdge;
    var ids := MemoryIds(ms);
    SimilarityEdgesPairs(ms, 0, rt);
    SimilarityPairsCount(ids, LinkedAt(ms, rt), 0, p, q);
  }

  lemma SimilarityEdgesCons(ms: seq<VectorMemory>, i: nat, rt: Runtime, row: seq<GraphEdge>, rest: seq<GraphEdge>)
    requires i + 1 < |ms|
    requires forall e :: e in row <==> exists k :: i + 1 <= k < |ms| && PairEdge(ms, i, k, e, rt)
    requires forall e :: e in rest <==> exists p, q :: i + 1 <= p && PairEdge(ms, p, q, e, rt)
    ensures forall e :: e in row + rest <==> exists p, q :: i <= p && PairEdge(ms, p, q, e, rt)
  {
    forall e | e in row + rest ensures exists p, q :: i <= p && PairEdge(ms, p, q, e, rt) {
      if e in row {
        var k :| i + 1 <= k < |ms| && PairEdge(ms, i, k, e, rt);
      }
    }
    forall e | (exists p, q :: i <= p && PairEdge(ms, p, q, e, rt)) ensures e in row + rest {
      var p, q :| i <= p && PairEdge(ms, p, q, e, rt);
      if p == i {
        assert e in row;
      } else {
        assert e in rest;
      }
    }
  }

  // ---------------------------------------------------------------------------
  // Search highlights

  /** `searchQuery.toLowerCase().trim()` when the query is present and not blank. */
  function NormalizedQuery(q: Option<string>): (r: Option<string>)
    ensures r.Some? <==> Truthy(q) && Trim(q.value) != ""
  {
    if Truthy(q) && Trim(q.value) != "" then Some(Trim(ToLower(q.value))) else None
  }

  predicate MatchesQuery(m: VectorMemory, query: string) {
    Includes(ToLower(m.sentence), query)
  }

  function SearchEdge(videoNodeId: string, m: VectorMemory): GraphEdge
  {
    GraphEdge("search-" + videoNodeId + "-" + m.id, videoNodeId, m.id, 1.0,
      VisualProps(0.9, 3.0, 0.8, 1000.0), EdgeColor(SearchKey, 1.0), VideoSentence,
      EdgeMetadata(None, Some(1.0), None))
  }

  /** One highlight edge from the video node per sentence matching the query, in order. */
  function SearchEdges(videoNodeId: string, query: string, ms: seq<VectorMemory>): (es: seq<GraphEdge>)
    ensures |es| <= |ms|
    ensures forall e :: e in es <==> exists m :: m in ms && MatchesQuery(m, query) && e == SearchEdge(videoNodeId, m)
  {
    if |ms| == 0 then []
    else
      var init := ms[..|ms| - 1];
      var last := ms[|ms| - 1];
      assert ms == init + [last];
      SearchEdges(videoNodeId, query, init) + (if MatchesQuery(last, query) then [SearchEdge(videoNodeId, last)] else [])
  }

  // ---------------------------------------------------------------------------
  // The whole build

  /** The memories that survive the filter, and their groups. */
  function Filtered(input: GraphInput): seq<VectorMemory> {
    FilterMemories(input.memories, input.filterCategory)
  }

  function Groups(input: GraphInput): seq<Bucket<string, VectorMemory>> {
    GroupBy(Filtered(input), GroupKey)
  }

  function VideoOf(input: GraphInput): GraphNode {
    BuildVideoNode(input, |Filtered(input)|)
  }

  function HubsOf(input: GraphInput, rt: Runtime): seq<GraphNode> {
    CategoryNodes(Groups(input), VideoOf(input), input, rt)
  }

  /** The memories drawn as sentence nodes, in drawing order. */
  function MembersOf(input: GraphInput, rt: Runtime): seq<VectorMemory> {
    SentenceMemories(Groups(input), HubsOf(input, rt))
  }

  /** The sentence nodes before collision avoidance. */
  function SentencesOf(input: GraphInput, rt: Runtime): seq<GraphNode> {
    SentenceNodes(Groups(input), HubsOf(input, rt), input, rt)
  }

  /** The structural edges: video to category, then category to sentence. */
  function StructuralEdges(input: GraphInput, rt: Runtime): seq<GraphEdge> {
    var groups := Groups(input);
    assert |Filtered(input)| == 0 ==> |groups| == 0;
    CategoryEdges(groups, VideoOf(input).id, |Filtered(input)|) + SentenceEdges(groups, HubsOf(input, rt))
  }

  function HighlightEdges(input: GraphInput, rt: Runtime): seq<GraphEdge> {
    match NormalizedQuery(input.searchQuery)
    case None => []
    case Some(q) => SearchEdges(VideoOf(input).id, q, MembersOf(input, rt))
  }

  /** The nodes of a non-empty build: the video node, the category nodes, then the
      sentence nodes after collision avoidance. */
  function NodesOf(input: GraphInput, rt: Runtime): seq<GraphNode> {
    [VideoOf(input)] + HubsOf(input, rt) + Collision.Collide(SentencesOf(input, rt), MinSentenceDistance, rt.sqrt)
  }

  /** The edges of a non-empty build: structural, then similarity, then search edges. */
  function EdgesOf(input: GraphInput, rt: Runtime): seq<GraphEdge> {
    StructuralEdges(input, rt) + SimilarityEdges(MembersOf(input, rt), 0, rt) + HighlightEdges(input, rt)
  }

  /** `useGraphData(memories, videoId, indexId, nodePositions, draggingNodeId, searchQuery,
      filterCategory)`. */
  function BuildGraph(input: GraphInput, rt: Runtime): (r: Graph)
    ensures r.nodes == [] <==> |input.memories| == 0
    ensures |input.memories| == 0 ==> r.edges == []
    ensures |input.memories| > 0 ==> r.nodes[0] == VideoOf(input)
  {
    if |input.memories| == 0 then Graph([], [])
    else Graph(NodesOf(input, rt), EdgesOf(input, rt))
  }
}
