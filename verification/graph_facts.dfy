/** What the graph builder promises about the graph it returns: its size, where its
    nodes sit, which edges it draws and with what weight, and what searching, dragging
    and collision avoidance change. */
module GraphFacts {
  import opened Base
  import opened Seqs
  import opened GraphTypes
  import opened Constants
  import opened GraphData
  import Collision

  // ---------------------------------------------------------------------------
  // Helpers over node and edge lists

  /** How many edges of type `t` the list holds. */
  function CountOfType(es: seq<GraphEdge>, t: EdgeType): nat
  {
    if |es| == 0 then 0
    else CountOfType(es[..|es| - 1], t) + (if es[|es| - 1].edgeType == t then 1 else 0)
  }

  lemma {:induction false} CountOfTypeAppend(a: seq<GraphEdge>, b: seq<GraphEdge>, t: EdgeType)
    ensures CountOfType(a + b, t) == CountOfType(a, t) + CountOfType(b, t)
  {
    if |b| > 0 {
      CountOfTypeAppend(a, b[..|b| - 1], t);
      assert (a + b)[..|a + b| - 1] == a + b[..|b| - 1];
    } else {
      assert a + b == a;
    }
  }

  lemma {:induction false} CountOfTypeUniform(es: seq<GraphEdge>, t: EdgeType, u: EdgeType)
    requires forall e :: e in es ==> e.edgeType == u
    ensures CountOfType(es, t) == if t == u then |es| else 0
  {
    if |es| > 0 {
      CountOfTypeUniform(es[..|es| - 1], t, u);
      assert es[|es| - 1] in es;
    }
  }

  /** How many edges end at the node `id`. */
  function CountTarget(es: seq<GraphEdge>, id: string): nat
  {
    if |es| == 0 then 0
    else CountTarget(es[..|es| - 1], id) + (if es[|es| - 1].target == id then 1 else 0)
  }

  lemma NodeIdsRepositioned(a: seq<GraphNode>, b: seq<GraphNode>)
    requires Collision.AllRepositioned(a, b)
    ensures NodeIds(a) == NodeIds(b)
  {
    assert forall k :: 0 <= k < |a| ==> Collision.Repositioned(a[k], b[k]);
  }

  /** Rearranging memories rearranges their ids. */
  lemma MemoryIdsPermute(a: seq<VectorMemory>, b: seq<VectorMemory>)
    requires multiset(a) == multiset(b)
    ensures multiset(MemoryIds(a)) == multiset(MemoryIds(b))
  {
    var f := MemoryId;
    MapSubMultiset(a, b, f);
    MapSubMultiset(b, a, f);
  }

  // ---------------------------------------------------------------------------
  // Every group finds its category node

  lemma {:induction false} FindFirst(hubs: seq<GraphNode>, c: string, k: nat)
    requires k < |hubs| && IsCategoryFor(hubs[k], c)
    requires forall j :: 0 <= j < k ==> !IsCategoryFor(hubs[j], c)
    ensures FindCategoryNode(hubs, c) == Some(hubs[k])
  {
    if k > 0 {
      FindFirst(hubs[1..], c, k - 1);
    }
  }

  /** The category node of a group is the one built for it, at the same position in the
      list, because group keys are distinct. */
  lemma HubOfGroup(input: GraphInput, rt: Runtime, k: nat)
    requires k < |Groups(input)|
    ensures |HubsOf(input, rt)| == |Groups(input)|
    ensures FindCategoryNode(HubsOf(input, rt), Groups(input)[k].key) == Some(HubsOf(input, rt)[k])
  {
    var groups := Groups(input);
    var hubs := HubsOf(input, rt);
    GroupByKeysDistinct(Filtered(input), GroupKey);
    forall j | 0 <= j < k ensures !IsCategoryFor(hubs[j], groups[k].key) {
      assert Keys(groups)[j] == groups[j].key && Keys(groups)[k] == groups[k].key;
    }
    FindFirst(hubs, groups[k].key, k);
  }

  lemma {:induction false} SentenceMemoriesAllFound(groups: seq<Bucket<string, VectorMemory>>, hubs: seq<GraphNode>)
    requires forall k :: 0 <= k < |groups| ==> FindCategoryNode(hubs, groups[k].key).Some?
    ensures SentenceMemories(groups, hubs) == Flatten(groups)
  {
    if |groups| > 0 {
      assert FindCategoryNode(hubs, groups[0].key).Some?;
      forall k | 0 <= k < |groups[1..]| ensures FindCategoryNode(hubs, groups[1..][k].key).Some? {
        assert groups[1..][k] == groups[k + 1];
      }
      SentenceMemoriesAllFound(groups[1..], hubs);
    }
  }

  /** Every memory that survives the filter gets a sentence node: the drawn memories are
      the filtered ones, regrouped by category. */
  lemma MembersAreFiltered(input: GraphInput, rt: Runtime)
    ensures MembersOf(input, rt) == Flatten(Groups(input))
    ensures multiset(MembersOf(input, rt)) == multiset(Filtered(input))
    ensures |MembersOf(input, rt)| == |Filtered(input)|
  {
    var groups := Groups(input);
    forall k | 0 <= k < |groups| ensures FindCategoryNode(HubsOf(input, rt), groups[k].key).Some? {
      HubOfGroup(input, rt, k);
    }
    SentenceMemoriesAllFound(groups, HubsOf(input, rt));
    GroupByPermutes(Filtered(input), GroupKey);
  }

  // ---------------------------------------------------------------------------
  // Shape of the graph

  /** An empty memory list gives an empty graph. */
  lemma BuildEmpty(input: GraphInput, rt: Runtime)
    requires |input.memories| == 0
    ensures BuildGraph(input, rt) == Graph([], [])
  {
  }

  /** A filter that no memory passes leaves the video node alone, with no edges and a
      sentence total of 0. */
  lemma BuildFilteredOut(input: GraphInput, rt: Runtime)
    requires |input.memories| > 0 && Truthy(input.filterCategory)
    requires forall m :: m in input.memories ==> CategoryOf(m) != input.filterCategory
    ensures var g := BuildGraph(input, rt);
      && |g.nodes| == 1 && g.edges == []
      && g.nodes[0].nodeType == VideoNode && g.nodes[0].id == VideoNodeId(input.videoId)
      && g.nodes[0].data.totalSentences == 0
  {
    SelectNone(input.memories, CategoryOf, input.filterCategory);
    assert Groups(input) == [];
    assert HubsOf(input, rt) == [];
    assert MembersOf(input, rt) == [];
    assert |Collision.Collide(SentencesOf(input, rt), MinSentenceDistance, rt.sqrt)| == 0;
    assert StructuralEdges(input, rt) == [];
    assert HighlightEdges(input, rt) == [];
  }

  /** The four kinds of edge each have their own type; search highlights share the
      video-sentence type with nothing else. */
  lemma EdgeKinds(input: GraphInput, rt: Runtime)
    requires |Filtered(input)| > 0 || |Groups(input)| == 0
    ensures forall e :: e in CategoryEdges(Groups(input), VideoOf(input).id, |Filtered(input)|) ==> e.edgeType == VideoCategory
    ensures forall e :: e in SentenceEdges(Groups(input), HubsOf(input, rt)) ==> e.edgeType == CategorySentence
    ensures forall e :: e in SimilarityEdges(MembersOf(input, rt), 0, rt) ==> e.edgeType == SentenceSentence
    ensures forall e :: e in HighlightEdges(input, rt) ==> e.edgeType == VideoSentence
  {
    RunKind(CategoryEdges(Groups(input), VideoOf(input).id, |Filtered(input)|), VideoCategory);
    RunKind(SentenceEdges(Groups(input), HubsOf(input, rt)), CategorySentence);
    RunKind(SimilarityEdges(MembersOf(input, rt), 0, rt), SentenceSentence);
  }

  /** An edge list whose every position has type `t` holds only edges of type `t`. */
  lemma RunKind(es: seq<GraphEdge>, t: EdgeType)
    requires forall k :: 0 <= k < |es| ==> es[k].edgeType == t
    ensures forall e :: e in es ==> e.edgeType == t
  {
    forall e | e in es ensures e.edgeType == t {
      var k :| 0 <= k < |es| && es[k] == e;
    }
  }

  /** The number of distinct categories among the surviving memories, a missing one
      counting as `description`. */
  ghost function CategoryCount(input: GraphInput): nat {
    KeyCount(Filtered(input), GroupKey)
  }

  lemma GroupsCount(input: GraphInput)
    ensures |Groups(input)| == CategoryCount(input)
  {
    GroupByCount(Filtered(input), GroupKey);
  }

  lemma ThreeParts(a: GraphNode, b: seq<GraphNode>, c: seq<GraphNode>)
    ensures var s := [a] + b + c;
      && |s| == 1 + |b| + |c| && s[0] == a && s[1 + |b|..] == c
      && (forall i :: 1 <= i <= |b| ==> s[i] == b[i - 1])
      && (forall i :: 1 + |b| <= i < |s| ==> s[i] == c[i - 1 - |b|])
  {
  }

  /** A graph built from at least one memory is its node list and its edge list. */
  lemma BuildParts(input: GraphInput, rt: Runtime)
    requires |input.memories| > 0
    ensures BuildGraph(input, rt) == Graph(NodesOf(input, rt), EdgesOf(input, rt))
  {
  }

  /** The sentence nodes keep their memories' ids through collision avoidance. */
  lemma MovedIds(input: GraphInput, rt: Runtime)
    ensures var moved := Collision.Collide(SentencesOf(input, rt), MinSentenceDistance, rt.sqrt);
      multiset(NodeIds(moved)) == multiset(MemoryIds(Filtered(input)))
  {
    var sentences := SentencesOf(input, rt);
    var moved := Collision.Collide(sentences, MinSentenceDistance, rt.sqrt);
    NodeIdsRepositioned(sentences, moved);
    assert NodeIds(sentences) == MemoryIds(MembersOf(input, rt));
    MembersAreFiltered(input, rt);
    MemoryIdsPermute(MembersOf(input, rt), Filtered(input));
  }

  /** The node list is the video node, then one category node per distinct category,
      then one sentence node per surviving memory, whose ids are the memories' ids
      rearranged by category. */
  lemma BuildNodeCounts(input: GraphInput, rt: Runtime)
    ensures var ns := NodesOf(input, rt);
      var n := |Filtered(input)|;
      var k := CategoryCount(input);
      && |ns| == 1 + k + n
      && ns[0].nodeType == VideoNode
      && (forall i :: 1 <= i <= k ==> ns[i].nodeType == CategoryNode)
      && (forall i :: 1 + k <= i < |ns| ==> ns[i].nodeType == SentenceNode)
      && multiset(NodeIds(ns[1 + k..])) == multiset(MemoryIds(Filtered(input)))
  {
    var moved := Collision.Collide(SentencesOf(input, rt), MinSentenceDistance, rt.sqrt);
    HubKinds(input, rt);
    MovedKinds(input, rt);
    NodeParts(NodesOf(input, rt), VideoOf(input), HubsOf(input, rt), moved);
  }

  /** The layout of a node list made of one node, then a run of category nodes, then a
      run of sentence nodes. */
  lemma NodeParts(ns: seq<GraphNode>, v: GraphNode, hubs: seq<GraphNode>, moved: seq<GraphNode>)
    requires ns == [v] + hubs + moved
    requires forall i :: 0 <= i < |hubs| ==> hubs[i].nodeType == CategoryNode
    requires forall i :: 0 <= i < |moved| ==> moved[i].nodeType == SentenceNode
    ensures |ns| == 1 + |hubs| + |moved| && ns[0] == v && ns[1 + |hubs|..] == moved
    ensures forall i :: 1 <= i <= |hubs| ==> ns[i].nodeType == CategoryNode
    ensures forall i :: 1 + |hubs| <= i < |ns| ==> ns[i].nodeType == SentenceNode
  {
    ThreeParts(v, hubs, moved);
  }

  /** One category node per distinct category. */
  lemma HubKinds(input: GraphInput, rt: Runtime)
    ensures var hubs := HubsOf(input, rt);
      |hubs| == CategoryCount(input) && forall i :: 0 <= i < |hubs| ==> hubs[i].nodeType == CategoryNode
  {
    GroupsCount(input);
  }

  /** One sentence node per surviving memory, after collision avoidance. */
  lemma MovedKinds(input: GraphInput, rt: Runtime)
    ensures var moved := Collision.Collide(SentencesOf(input, rt), MinSentenceDistance, rt.sqrt);
      && |moved| == |Filtered(input)|
      && (forall i :: 0 <= i < |moved| ==> moved[i].nodeType == SentenceNode)
      && multiset(NodeIds(moved)) == multiset(MemoryIds(Filtered(input)))
  {
    var sentences := SentencesOf(input, rt);
    var moved := Collision.Collide(sentences, MinSentenceDistance, rt.sqrt);
    MembersAreFiltered(input, rt);
    MovedIds(input, rt);
    forall i | 0 <= i < |moved| ensures moved[i].nodeType == SentenceNode {
      assert Collision.Repositioned(sentences[i], moved[i]);
    }
  }

  /** The edges are the video-to-category edges, one per category, then the
      category-to-sentence edges, one per surviving memory, then the similarity and
      search edges, which have other types. */
  lemma BuildEdgeCounts(input: GraphInput, rt: Runtime)
    ensures CountOfType(EdgesOf(input, rt), VideoCategory) == CategoryCount(input)
    ensures CountOfType(EdgesOf(input, rt), CategorySentence) == |Filtered(input)|
  {
    var filtered := Filtered(input);
    var groups := Groups(input);
    GroupsCount(input);
    MembersAreFiltered(input, rt);
    if |filtered| == 0 {
      assert |groups| == 0;
    }
    EdgeKinds(input, rt);
    var ce := CategoryEdges(groups, VideoOf(input).id, |filtered|);
    var se := SentenceEdges(groups, HubsOf(input, rt));
    assert StructuralEdges(input, rt) == ce + se;
    FourPartCounts(ce, se, SimilarityEdges(MembersOf(input, rt), 0, rt), HighlightEdges(input, rt));
  }

  lemma FourPartCounts(ce: seq<GraphEdge>, se: seq<GraphEdge>, le: seq<GraphEdge>, he: seq<GraphEdge>)
    requires forall e :: e in ce ==> e.edgeType == VideoCategory
    requires forall e :: e in se ==> e.edgeType == CategorySentence
    requires forall e :: e in le ==> e.edgeType == SentenceSentence
    requires forall e :: e in he ==> e.edgeType == VideoSentence
    ensures CountOfType(ce + se + le + he, VideoCategory) == |ce|
    ensures CountOfType(ce + se + le + he, CategorySentence) == |se|
  {
    forall t | t == VideoCategory || t == CategorySentence
      ensures CountOfType(ce + se + le + he, t) == CountOfType(ce, t) + CountOfType(se, t)
    {
      CountOfTypeAppend(ce + se + le, he, t);
      CountOfTypeAppend(ce + se, le, t);
      CountOfTypeAppend(ce, se, t);
      CountOfTypeUniform(le, t, SentenceSentence);
      CountOfTypeUniform(he, t, VideoSentence);
    }
    CountOfTypeUniform(ce, VideoCategory, VideoCategory);
    CountOfTypeUniform(se, VideoCategory, CategorySentence);
    CountOfTypeUniform(ce, CategorySentence, VideoCategory);
    CountOfTypeUniform(se, CategorySentence, CategorySentence);
  }

  // ---------------------------------------------------------------------------
  // Positions

  /** A point at distance `r` along a unit direction `(c, s)` is `r` away. */
  lemma RingDistance(c: real, s: real, r: real)
    requires c * c + s * s == 1.0
    ensures (c * r) * (c * r) + (s * r) * (s * r) == r * r
  {
    assert (c * r) * (c * r) == (c * c) * (r * r);
    assert (s * r) * (s * r) == (s * s) * (r * r);
    assert (c * c) * (r * r) + (s * s) * (r * r) == (c * c + s * s) * (r * r);
  }

  /** `n` lies on the circle of radius `r` around `center`. */
  predicate OnRing(n: GraphNode, center: GraphNode, r: real) {
    (n.x - center.x) * (n.x - center.x) + (n.y - center.y) * (n.y - center.y) == r * r
  }

  /** The video node sits on its explicit position if it has one, and at the centre
      otherwise. */
  lemma VideoPlacement(input: GraphInput, rt: Runtime)
    ensures var v := NodesOf(input, rt)[0];
      && v.id == VideoNodeId(input.videoId) && v.size == VideoSize
      && (v.id in input.nodePositions ==> Point(v.x, v.y) == input.nodePositions[v.id])
      && (v.id !in input.nodePositions ==> v.x == CenterX && v.y == CenterY)
  {
  }

  /** Where the parts sit in the node list. */
  lemma NodeLayout(input: GraphInput, rt: Runtime)
    ensures var ns := NodesOf(input, rt);
      var hubs := HubsOf(input, rt);
      && |hubs| == |Groups(input)|
      && |ns| > |hubs| && ns[0] == VideoOf(input)
      && (forall k :: 0 <= k < |hubs| ==> ns[1 + k] == hubs[k])
  {
    var hubs := HubsOf(input, rt);
    ThreeParts(VideoOf(input), hubs, Collision.Collide(SentencesOf(input, rt), MinSentenceDistance, rt.sqrt));
  }

  /** A group holds exactly the filtered memories with its key. */
  lemma GroupCount(input: GraphInput, k: nat)
    requires k < |Groups(input)|
    ensures |Groups(input)[k].items| == |Select(Filtered(input), GroupKey, Groups(input)[k].key)|
  {
    var xs := Filtered(input);
    assert Groups(input) == GroupBy(xs, GroupKey);
    BucketCount(xs, GroupKey, k);
  }

  lemma BucketCount<T>(xs: seq<T>, key: T -> string, k: nat)
    requires k < |GroupBy(xs, key)|
    ensures |GroupBy(xs, key)[k].items| == |Select(xs, key, GroupBy(xs, key)[k].key)|
  {
    GroupByItems(xs, key);
  }

  /** A category node sits on its explicit position, or on the circle of radius 350
      around the video node at its angle. */
  lemma HubPlacement(g: Bucket<string, VectorMemory>, k: nat, count: nat, video: GraphNode,
                     input: GraphInput, rt: Runtime)
    requires k < count
    ensures var c := BuildCategoryNode(g, k, count, video, input, rt);
      && c.id == CategoryNodeId(g.key)
      && c.data.count == |g.items|
      && (c.id in input.nodePositions ==> Point(c.x, c.y) == input.nodePositions[c.id])
      && (c.id !in input.nodePositions ==>
            && c.x == video.x + rt.cos(CategoryAngle(k, count)) * CategoryClusterRadius
            && c.y == video.y + rt.sin(CategoryAngle(k, count)) * CategoryClusterRadius)
      && (c.id !in input.nodePositions && Valid(rt) ==> OnRing(c, video, CategoryClusterRadius))
  {
    var angle := CategoryAngle(k, count);
    if Valid(rt) {
      RingDistance(rt.cos(angle), rt.sin(angle), CategoryClusterRadius);
    }
  }

  /** The `k`th category node is the node of the `k`th category to occur. Without an
      explicit position it sits at angle 2 pi k / K on the circle of radius 350 around the
      video node, wherever that node was placed; it counts its category's memories. */
  lemma CategoryPlacement(input: GraphInput, rt: Runtime, k: nat)
    requires k < |Groups(input)|
    ensures |NodesOf(input, rt)| > 1 + k
    ensures var ns := NodesOf(input, rt);
      var key := Groups(input)[k].key;
      var c := ns[1 + k];
      var v := ns[0];
      && c.id == CategoryNodeId(key)
      && c.data.count == |Select(Filtered(input), GroupKey, key)|
      && (c.id in input.nodePositions ==> Point(c.x, c.y) == input.nodePositions[c.id])
      && (c.id !in input.nodePositions ==>
            && c.x == v.x + rt.cos(CategoryAngle(k, |Groups(input)|)) * CategoryClusterRadius
            && c.y == v.y + rt.sin(CategoryAngle(k, |Groups(input)|)) * CategoryClusterRadius)
      && (c.id !in input.nodePositions && Valid(rt) ==> OnRing(c, v, CategoryClusterRadius))
  {
    NodeLayout(input, rt);
    GroupCount(input, k);
    var groups := Groups(input);
    assert HubsOf(input, rt)[k] == BuildCategoryNode(groups[k], k, |groups|, VideoOf(input), input, rt);
    HubPlacement(groups[k], k, |groups|, VideoOf(input), input, rt);
  }

  /** The `idx`th sentence of a group sits on its explicit position if it has one;
      otherwise it sits on the spiral around the group's category node (wherever that was
      placed), on the ring of radius 60, 120 or 180 chosen by `idx % 3`. */
  lemma SentencePlacement(g: Bucket<string, VectorMemory>, hub: GraphNode, input: GraphInput, rt: Runtime, idx: nat)
    requires idx < |g.items|
    ensures var n := GroupSentenceNodes(g, hub, input, rt)[idx];
      var r := SpiralRadius(idx);
      && n.id == g.items[idx].id
      && (n.id in input.nodePositions ==> Point(n.x, n.y) == input.nodePositions[n.id])
      && (n.id !in input.nodePositions ==>
            && n.x == hub.x + rt.cos(SpiralAngle(idx, |g.items|)) * r
            && n.y == hub.y + rt.sin(SpiralAngle(idx, |g.items|)) * r)
      && (n.id !in input.nodePositions && Valid(rt) ==> OnRing(n, hub, r))
  {
    var angle := SpiralAngle(idx, |g.items|);
    if Valid(rt) {
      RingDistance(rt.cos(angle), rt.sin(angle), SpiralRadius(idx));
    }
  }

  // ---------------------------------------------------------------------------
  // Edge weights

  /** The edge list is its four runs one after another. */
  lemma EdgesSplit(input: GraphInput, rt: Runtime)
    ensures |Filtered(input)| > 0 || |Groups(input)| == 0
    ensures EdgesOf(input, rt) ==
      CategoryEdges(Groups(input), VideoOf(input).id, |Filtered(input)|) + SentenceEdges(Groups(input), HubsOf(input, rt))
      + SimilarityEdges(MembersOf(input, rt), 0, rt) + HighlightEdges(input, rt)
  {
    GroupsNeedMembers(input);
  }

  lemma MembersCount(input: GraphInput, rt: Runtime)
    ensures |MembersOf(input, rt)| == |Filtered(input)|
  {
    MembersAreFiltered(input, rt);
  }

  lemma GroupsNeedMembers(input: GraphInput)
    ensures |Filtered(input)| > 0 || |Groups(input)| == 0
  {
  }

  /** The `k`th edge joins the video node to the `k`th category node, weighted by the
      category's size over 10, capped at 1; its importance is the category's share of
      the surviving memories. */
  lemma CategoryEdgeWeight(input: GraphInput, rt: Runtime, k: nat)
    requires k < |Groups(input)|
    ensures |EdgesOf(input, rt)| > k && |NodesOf(input, rt)| > 1 + k
    ensures var e := EdgesOf(input, rt)[k];
      var ns := NodesOf(input, rt);
      var count := |Select(Filtered(input), GroupKey, Groups(input)[k].key)|;
      && e.source == ns[0].id && e.target == ns[1 + k].id
      && e.edgeType == VideoCategory
      && e.similarity == CategoryWeight(count)
      && e.metadata.importance == Some(Share(count, |Filtered(input)|))
  {
    CategoryEdgeIsRun(input, rt, k);
    CategoryEdgeAt(Groups(input), VideoOf(input).id, |Filtered(input)|, k);
    NodeLayout(input, rt);
    GroupCount(input, k);
  }

  /** The first edges are the category run, one per group. */
  lemma CategoryEdgeIsRun(input: GraphInput, rt: Runtime, k: nat)
    requires k < |Groups(input)|
    ensures |Filtered(input)| > 0 && |EdgesOf(input, rt)| > k
    ensures EdgesOf(input, rt)[k] == CategoryEdges(Groups(input), VideoOf(input).id, |Filtered(input)|)[k]
  {
    var groups := Groups(input);
    var ce := CategoryEdges(groups, VideoOf(input).id, |Filtered(input)|);
    EdgesSplit(input, rt);
    RunsAt(EdgesOf(input, rt), ce, SentenceEdges(groups, HubsOf(input, rt)),
      SimilarityEdges(MembersOf(input, rt), 0, rt), HighlightEdges(input, rt));
  }

  /** Positions in the first two of four runs laid end to end. */
  lemma RunsAt(s: seq<GraphEdge>, a: seq<GraphEdge>, b: seq<GraphEdge>, c: seq<GraphEdge>, d: seq<GraphEdge>)
    requires s == a + b + c + d
    ensures |s| >= |a| + |b|
    ensures forall k :: 0 <= k < |a| ==> s[k] == a[k]
    ensures forall i :: 0 <= i < |b| ==> s[|a| + i] == b[i]
  {
  }

  lemma CategoryEdgeAt(groups: seq<Bucket<string, VectorMemory>>, videoNodeId: string, total: nat, k: nat)
    requires total > 0 && k < |groups|
    ensures var e := CategoryEdges(groups, videoNodeId, total)[k];
      var count := |groups[k].items|;
      && e.source == videoNodeId && e.target == CategoryNodeId(groups[k].key)
      && e.edgeType == VideoCategory
      && e.similarity == CategoryWeight(count)
      && e.metadata.importance == Some(Share(count, total))
  {
  }

  /** After the category edges come the category-to-sentence edges, one per drawn
      memory in drawing order, from a category node to the memory's node, weighted by
      the memory's importance. */
  lemma SentenceEdgeWeight(input: GraphInput, rt: Runtime, i: nat)
    requires i < |Filtered(input)|
    ensures i < |MembersOf(input, rt)| && |Groups(input)| + i < |EdgesOf(input, rt)|
    ensures var m := MembersOf(input, rt)[i];
      var e := EdgesOf(input, rt)[|Groups(input)| + i];
      && e.target == m.id && e.source in NodeIds(HubsOf(input, rt))
      && e.edgeType == CategorySentence && e.similarity == Importance(m)
  {
    MembersCount(input, rt);
    var se := SentenceEdges(Groups(input), HubsOf(input, rt));
    assert |se| == |MembersOf(input, rt)|;
    SentenceEdgeIsRun(input, rt, i);
    assert se[i].target == MembersOf(input, rt)[i].id;
  }

  /** The category-to-sentence edges follow the category edges, one per drawn memory. */
  lemma SentenceEdgeIsRun(input: GraphInput, rt: Runtime, i: nat)
    requires i < |SentenceEdges(Groups(input), HubsOf(input, rt))|
    ensures |Groups(input)| + i < |EdgesOf(input, rt)|
    ensures EdgesOf(input, rt)[|Groups(input)| + i] == SentenceEdges(Groups(input), HubsOf(input, rt))[i]
  {
    EdgesSplit(input, rt);
    var groups := Groups(input);
    var ce := CategoryEdges(groups, VideoOf(input).id, |Filtered(input)|);
    RunsAt(EdgesOf(input, rt), ce, SentenceEdges(groups, HubsOf(input, rt)),
      SimilarityEdges(MembersOf(input, rt), 0, rt), HighlightEdges(input, rt));
  }
}
