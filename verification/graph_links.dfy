/** Facts about the links of a built graph: which similarity and search edges it
    carries, that every edge joins two of its nodes, and which node is dragged. Record
    ids are assumed unique where a fact is about one record's edges, as the
    `vector_memories` primary key guarantees. */
module GraphLinks {
  import opened Base
  import opened Seqs
  import opened GraphTypes
  import opened Constants
  import opened GraphData
  import opened GraphFacts
  import Collision

  // ---------------------------------------------------------------------------
  // Unique ids

  /** Taking a sub-multiset of memories takes a sub-multiset of their ids. */
  lemma MemoryIdsSub(a: seq<VectorMemory>, b: seq<VectorMemory>)
    requires multiset(a) <= multiset(b)
    ensures multiset(MemoryIds(a)) <= multiset(MemoryIds(b))
  {
    var f := MemoryId;
    MapSubMultiset(a, b, f);
  }

  /** The drawn memories have distinct ids when the records do. */
  lemma MembersDistinct(input: GraphInput, rt: Runtime)
    requires Distinct(MemoryIds(input.memories))
    ensures Distinct(MemoryIds(MembersOf(input, rt)))
  {
    MembersAreFiltered(input, rt);
    MemoryIdsSub(MembersOf(input, rt), input.memories);
    DistinctBySubMultiset(MemoryIds(input.memories), MemoryIds(MembersOf(input, rt)));
  }

  // ---------------------------------------------------------------------------
  // Similarity edges

  /** Where an edge of the build comes from: the structural part, the similarity part or
      the search part. */
  lemma EdgeSources(input: GraphInput, rt: Runtime, e: GraphEdge)
    requires e in EdgesOf(input, rt)
    ensures || e in CategoryEdges(Groups(input), VideoOf(input).id, |Filtered(input)|)
            || e in SentenceEdges(Groups(input), HubsOf(input, rt))
            || e in SimilarityEdges(MembersOf(input, rt), 0, rt)
            || e in HighlightEdges(input, rt)
  {
    GroupsNeedMembers(input);
    assert StructuralEdges(input, rt)
      == CategoryEdges(Groups(input), VideoOf(input).id, |Filtered(input)|) + SentenceEdges(Groups(input), HubsOf(input, rt));
  }

  /** The sentence-to-sentence edges of the build are exactly the edges of the linked
      pairs `p < q` of drawn memories. */
  lemma SimilarityEdgesExact(input: GraphInput, rt: Runtime)
    ensures forall e ::
      (e in EdgesOf(input, rt) && e.edgeType == SentenceSentence)
        <==> (exists p, q :: PairEdge(MembersOf(input, rt), p, q, e, rt))
  {
    var ms := MembersOf(input, rt);
    GroupsNeedMembers(input);
    EdgeKinds(input, rt);
    SimilarityEdgesMembers(ms, 0, rt);
    forall e | e in EdgesOf(input, rt) && e.edgeType == SentenceSentence
      ensures exists p, q :: PairEdge(ms, p, q, e, rt)
    {
      EdgeSources(input, rt, e);
    }
    forall e | exists p, q :: PairEdge(ms, p, q, e, rt)
      ensures e in EdgesOf(input, rt) && e.edgeType == SentenceSentence
    {
      var s := StructuralEdges(input, rt);
      var h := HighlightEdges(input, rt);
      assert e in SimilarityEdges(ms, 0, rt);
      assert EdgesOf(input, rt) == s + SimilarityEdges(ms, 0, rt) + h;
    }
  }

  /** A run without sentence-to-sentence edges adds no similarity ends. */
  lemma {:induction false} SentencePairsNone(es: seq<GraphEdge>)
    requires forall e :: e in es ==> e.edgeType != SentenceSentence
    ensures SentencePairs(es) == []
  {
    if |es| > 0 {
      assert es[0] in es;
      assert forall e :: e in es[1..] ==> e in es;
      SentencePairsNone(es[1..]);
    }
  }

  /** For drawn memories with unique ids, the build has exactly one similarity edge from
      the `p`-th to the `q`-th when `p < q` and their combined similarity exceeds the
      threshold, and none otherwise: no pair is linked twice or in both directions. */
  lemma SimilarityEdgeOnce(input: GraphInput, rt: Runtime, p: nat, q: nat)
    requires Distinct(MemoryIds(input.memories))
    requires p < |Filtered(input)| && q < |Filtered(input)|
    ensures p < |MembersOf(input, rt)| && q < |MembersOf(input, rt)|
    ensures var ms := MembersOf(input, rt);
      PairCount(EdgesOf(input, rt), ms[p].id, ms[q].id) == if p < q && Linked(ms[p], ms[q], rt) then 1 else 0
  {
    hide Linked, SimilarityEdge;
    var ms := MembersOf(input, rt);
    var a := CategoryEdges(Groups(input), VideoOf(input).id, |Filtered(input)|);
    var b := SentenceEdges(Groups(input), HubsOf(input, rt));
    var c := SimilarityEdges(ms, 0, rt);
    var d := HighlightEdges(input, rt);
    MembersCount(input, rt);
    MembersDistinct(input, rt);
    EdgesSplit(input, rt);
    EdgeKinds(input, rt);
    SentencePairsNone(a);
    SentencePairsNone(b);
    SentencePairsNone(d);
    SentencePairsAppend(a, b);
    SentencePairsAppend(a + b, c);
    SentencePairsAppend(a + b + c, d);
    assert SentencePairs(EdgesOf(input, rt)) == SentencePairs(c);
    SimilarityEdgesCount(ms, rt, p, q);
  }

  /** For drawn memories at positions `p < q` with unique ids, a sentence-to-sentence edge
      from the first to the second exists exactly when their combined similarity exceeds
      the threshold, and none runs the other way. */
  lemma SimilarityPairIff(input: GraphInput, rt: Runtime, p: nat, q: nat)
    requires Distinct(MemoryIds(input.memories))
    requires p < q < |Filtered(input)|
    ensures q < |MembersOf(input, rt)|
    ensures var ms := MembersOf(input, rt);
      && ((exists e :: e in EdgesOf(input, rt) && e.edgeType == SentenceSentence
             && e.source == ms[p].id && e.target == ms[q].id)
          <==> Linked(ms[p], ms[q], rt))
      && !(exists e :: e in EdgesOf(input, rt) && e.edgeType == SentenceSentence
             && e.source == ms[q].id && e.target == ms[p].id)
  {
    var ms := MembersOf(input, rt);
    MembersCount(input, rt);
    MembersDistinct(input, rt);
    SimilarityEdgesExact(input, rt);
    var ids := MemoryIds(ms);
    if Linked(ms[p], ms[q], rt) {
      var e := SimilarityEdge(ms[p], ms[q], rt);
      assert PairEdge(ms, p, q, e, rt);
    }
    forall e | e in EdgesOf(input, rt) && e.edgeType == SentenceSentence
      ensures e.source == ms[p].id && e.target == ms[q].id ==> Linked(ms[p], ms[q], rt)
      ensures !(e.source == ms[q].id && e.target == ms[p].id)
    {
      var p', q' :| PairEdge(ms, p', q', e, rt);
      assert ids[p'] == e.source && ids[q'] == e.target;
      if e.source == ms[p].id && e.target == ms[q].id {
        assert ids[p] == ids[p'] && ids[q] == ids[q'];
        assert p' == p && q' == q;
      }
    }
  }

  // ---------------------------------------------------------------------------
  // Search highlights

  /** The number of search-highlight edges that end at node `id`. */
  function Highlights(es: seq<GraphEdge>, id: string): nat
  {
    if |es| == 0 then 0
    else Highlights(es[..|es| - 1], id) + (if es[|es| - 1].edgeType == VideoSentence && es[|es| - 1].target == id then 1 else 0)
  }

  lemma {:induction false} HighlightsAppend(a: seq<GraphEdge>, b: seq<GraphEdge>, id: string)
    ensures Highlights(a + b, id) == Highlights(a, id) + Highlights(b, id)
  {
    if |b| == 0 {
      assert a + b == a;
    } else {
      HighlightsAppend(a, b[..|b| - 1], id);
      assert (a + b)[..|a + b| - 1] == a + b[..|b| - 1];
    }
  }

  lemma {:induction false} HighlightsNone(es: seq<GraphEdge>, id: string)
    requires forall k :: 0 <= k < |es| ==> es[k].edgeType != VideoSentence
    ensures Highlights(es, id) == 0
  {
    if |es| > 0 {
      HighlightsNone(es[..|es| - 1], id);
    }
  }

  /** How many of `ms` carry the id `id` and match the query. */
  function Hits(ms: seq<VectorMemory>, query: string, id: string): nat
  {
    if |ms| == 0 then 0
    else Hits(ms[..|ms| - 1], query, id) + (if ms[|ms| - 1].id == id && MatchesQuery(ms[|ms| - 1], query) then 1 else 0)
  }

  /** The highlight edges ending at a node are as many as the matching memories with its id. */
  lemma {:induction false} SearchEdgesHits(videoNodeId: string, query: string, ms: seq<VectorMemory>, id: string)
    ensures Highlights(SearchEdges(videoNodeId, query, ms), id) == Hits(ms, query, id)
  {
    if |ms| > 0 {
      var init := ms[..|ms| - 1];
      var last := ms[|ms| - 1];
      SearchEdgesHits(videoNodeId, query, init, id);
      var tail := if MatchesQuery(last, query) then [SearchEdge(videoNodeId, last)] else [];
      HighlightsAppend(SearchEdges(videoNodeId, query, init), tail, id);
      assert Highlights(tail, id) == if last.id == id && MatchesQuery(last, query) then 1 else 0 by {
        if |tail| == 1 {
          assert tail[..0] == [];
        }
      }
    }
  }

  lemma {:induction false} HitsAbsent(ms: seq<VectorMemory>, query: string, id: string)
    requires forall k :: 0 <= k < |ms| ==> ms[k].id != id
    ensures Hits(ms, query, id) == 0
  {
    if |ms| > 0 {
      HitsAbsent(ms[..|ms| - 1], query, id);
    }
  }

  /** With unique ids, the memory at position `i` is hit once if it matches and not at all
      otherwise. */
  lemma {:induction false} HitsUnique(ms: seq<VectorMemory>, query: string, i: nat)
    requires Distinct(MemoryIds(ms)) && i < |ms|
    ensures Hits(ms, query, ms[i].id) == if MatchesQuery(ms[i], query) then 1 else 0
  {
    var init := ms[..|ms| - 1];
    var ids := MemoryIds(ms);
    assert forall k :: 0 <= k < |init| ==> MemoryIds(init)[k] == ids[k];
    if i == |ms| - 1 {
      forall k | 0 <= k < |init| ensures init[k].id != ms[i].id {
        assert ids[k] != ids[i];
      }
      HitsAbsent(init, query, ms[i].id);
    } else {
      assert ids[i] != ids[|ms| - 1];
      HitsUnique(init, query, i);
    }
  }

  /** Only the search part of the build has highlight edges. */
  lemma HighlightsOnlyFromSearch(input: GraphInput, rt: Runtime, id: string)
    ensures Highlights(EdgesOf(input, rt), id) == Highlights(HighlightEdges(input, rt), id)
  {
    var groups := Groups(input);
    EdgesSplit(input, rt);
    EdgeKinds(input, rt);
    HighlightsOfLastRun(EdgesOf(input, rt), CategoryEdges(groups, VideoOf(input).id, |Filtered(input)|),
      SentenceEdges(groups, HubsOf(input, rt)), SimilarityEdges(MembersOf(input, rt), 0, rt), HighlightEdges(input, rt), id);
  }

  /** When the first three of four runs hold no edge of the video-sentence type, only
      the last run has highlights. */
  lemma HighlightsOfLastRun(s: seq<GraphEdge>, a: seq<GraphEdge>, b: seq<GraphEdge>, c: seq<GraphEdge>, d: seq<GraphEdge>, id: string)
    requires s == a + b + c + d
    requires forall e :: e in a ==> e.edgeType == VideoCategory
    requires forall e :: e in b ==> e.edgeType == CategorySentence
    requires forall e :: e in c ==> e.edgeType == SentenceSentence
    ensures Highlights(s, id) == Highlights(d, id)
  {
    HighlightsNone(a, id);
    HighlightsNone(b, id);
    HighlightsNone(c, id);
    HighlightsAppend(a, b, id);
    HighlightsAppend(a + b, c, id);
    HighlightsAppend(a + b + c, d, id);
  }

  /** Each drawn memory gets exactly one search-highlight edge when its lower-cased text
      contains the normalised query, and none otherwise or when there is no query. */
  lemma SearchExactlyOnce(input: GraphInput, rt: Runtime, i: nat)
    requires Distinct(MemoryIds(input.memories)) && i < |Filtered(input)|
    ensures i < |MembersOf(input, rt)|
    ensures var m := MembersOf(input, rt)[i];
      var q := NormalizedQuery(input.searchQuery);
      Highlights(EdgesOf(input, rt), m.id) == if q.Some? && MatchesQuery(m, q.value) then 1 else 0
  {
    var ms := MembersOf(input, rt);
    MembersCount(input, rt);
    MembersDistinct(input, rt);
    HighlightsOnlyFromSearch(input, rt, ms[i].id);
    match NormalizedQuery(input.searchQuery)
    case None =>
    case Some(q) =>
      SearchEdgesHits(VideoOf(input).id, q, ms, ms[i].id);
      HitsUnique(ms, q, i);
  }

  /** Every highlight edge leaves the video node, with similarity 1, for a drawn memory
      whose text contains the normalised query. */
  lemma HighlightShape(input: GraphInput, rt: Runtime)
    ensures forall e :: e in EdgesOf(input, rt) && e.edgeType == VideoSentence ==>
      && e.source == VideoOf(input).id && e.similarity == 1.0
      && NormalizedQuery(input.searchQuery).Some?
      && exists m :: m in MembersOf(input, rt) && MatchesQuery(m, NormalizedQuery(input.searchQuery).value) && e.target == m.id
  {
    GroupsNeedMembers(input);
    EdgeKinds(input, rt);
    forall e | e in EdgesOf(input, rt) && e.edgeType == VideoSentence
      ensures && e.source == VideoOf(input).id && e.similarity == 1.0
              && NormalizedQuery(input.searchQuery).Some?
              && exists m :: m in MembersOf(input, rt) && MatchesQuery(m, NormalizedQuery(input.searchQuery).value) && e.target == m.id
    {
      EdgeSources(input, rt, e);
    }
  }

  /** The sentence nodes depend on the view state only through the position overrides
      and the dragged id. */
  lemma {:induction false} SentenceNodesView(groups: seq<Bucket<string, VectorMemory>>, hubs: seq<GraphNode>,
                                             a: GraphInput, b: GraphInput, rt: Runtime)
    requires a.nodePositions == b.nodePositions && a.draggingNodeId == b.draggingNodeId
    ensures SentenceNodes(groups, hubs, a, rt) == SentenceNodes(groups, hubs, b, rt)
  {
    if |groups| > 0 {
      SentenceNodesView(groups[1..], hubs, a, b, rt);
      match FindCategoryNode(hubs, groups[0].key)
      case None =>
      case Some(hub) =>
        var g := groups[0];
        assert GroupSentenceNodes(g, hub, a, rt) == GroupSentenceNodes(g, hub, b, rt) by {
          forall idx | 0 <= idx < |g.items|
            ensures BuildSentenceNode(g.items[idx], idx, |g.items|, g.key, hub, a, rt)
                 == BuildSentenceNode(g.items[idx], idx, |g.items|, g.key, hub, b, rt)
          {
          }
        }
    }
  }

  /** A search adds edges and never changes the nodes or the other edges. */
  lemma SearchOnlyAdds(input: GraphInput, rt: Runtime)
    ensures var plain := input.(searchQuery := None);
      && NodesOf(plain, rt) == NodesOf(input, rt)
      && EdgesOf(input, rt) == EdgesOf(plain, rt) + HighlightEdges(input, rt)
  {
    var plain := input.(searchQuery := None);
    assert Groups(plain) == Groups(input) && VideoOf(plain) == VideoOf(input) by {
      assert Filtered(plain) == Filtered(input);
    }
    assert HubsOf(plain, rt) == HubsOf(input, rt);
    assert NodesOf(plain, rt) == NodesOf(input, rt) by {
      SentenceNodesView(Groups(input), HubsOf(input, rt), plain, input, rt);
      assert SentencesOf(plain, rt) == SentencesOf(input, rt);
    }
    assert EdgesOf(plain, rt) == StructuralEdges(input, rt) + SimilarityEdges(MembersOf(input, rt), 0, rt) by {
      assert MembersOf(plain, rt) == MembersOf(input, rt);
      assert StructuralEdges(plain, rt) == StructuralEdges(input, rt);
      assert HighlightEdges(plain, rt) == [];
    }
  }

  // ---------------------------------------------------------------------------
  // Flags, endpoints and the sentence centroid

  /** No node is hovered when built, and a node is dragged exactly when its id is the
      dragged one. */
  predicate FlagsFromInput(n: GraphNode, input: GraphInput) {
    !n.isHovered && (n.isDragging <==> input.draggingNodeId == Some(n.id))
  }

  lemma BuildFlags(input: GraphInput, rt: Runtime)
    ensures forall i :: 0 <= i < |NodesOf(input, rt)| ==> FlagsFromInput(NodesOf(input, rt)[i], input)
  {
    var hubs := HubsOf(input, rt);
    var sentences := SentencesOf(input, rt);
    var moved := Collision.Collide(sentences, MinSentenceDistance, rt.sqrt);
    ThreeParts(VideoOf(input), hubs, moved);
    forall j | 0 <= j < |moved| ensures FlagsFromInput(moved[j], input) {
      assert Collision.Repositioned(sentences[j], moved[j]);
      assert FlagsFromInput(sentences[j], input);
    }
  }

  lemma InIds(ns: seq<GraphNode>, i: nat)
    requires i < |ns|
    ensures ns[i].id in NodeIds(ns)
  {
    assert NodeIds(ns)[i] == ns[i].id;
  }

  lemma HubIdsIn(v: GraphNode, hubs: seq<GraphNode>, moved: seq<GraphNode>)
    ensures forall k :: 0 <= k < |hubs| ==> hubs[k].id in NodeIds([v] + hubs + moved)
  {
    var all := [v] + hubs + moved;
    forall k | 0 <= k < |hubs| ensures hubs[k].id in NodeIds(all) {
      assert all[1 + k] == hubs[k];
      InIds(all, 1 + k);
    }
  }

  lemma SuffixIdsIn(pre: seq<GraphNode>, suf: seq<GraphNode>)
    ensures forall j :: 0 <= j < |suf| ==> suf[j].id in NodeIds(pre + suf)
  {
    forall j | 0 <= j < |suf| ensures suf[j].id in NodeIds(pre + suf) {
      assert (pre + suf)[|pre| + j] == suf[j];
      InIds(pre + suf, |pre| + j);
    }
  }

  lemma MovedIdsIn(v: GraphNode, hubs: seq<GraphNode>, moved: seq<GraphNode>)
    ensures forall j :: 0 <= j < |moved| ==> moved[j].id in NodeIds([v] + hubs + moved)
  {
    SuffixIdsIn([v] + hubs, moved);
  }

  /** The ids the node list carries: the video node's, every category node's and every
      drawn memory's. */
  lemma NodeIdsOf(input: GraphInput, rt: Runtime)
    ensures var ids := NodeIds(NodesOf(input, rt));
      && VideoOf(input).id in ids
      && (forall k :: 0 <= k < |HubsOf(input, rt)| ==> HubsOf(input, rt)[k].id in ids)
      && (forall m :: m in MembersOf(input, rt) ==> m.id in ids)
  {
    var hubs := HubsOf(input, rt);
    var sentences := SentencesOf(input, rt);
    var moved := Collision.Collide(sentences, MinSentenceDistance, rt.sqrt);
    InIds([VideoOf(input)] + hubs + moved, 0);
    HubIdsIn(VideoOf(input), hubs, moved);
    MovedIdsIn(VideoOf(input), hubs, moved);
    var ids := NodeIds(NodesOf(input, rt));
    var ms := MembersOf(input, rt);
    forall m | m in ms ensures m.id in ids {
      var j :| 0 <= j < |ms| && ms[j] == m;
      assert Collision.Repositioned(sentences[j], moved[j]);
      assert moved[j].id == m.id;
    }
  }

  /** The structural edges join the video node to the category nodes and the category
      nodes to the drawn memories. */
  lemma StructuralClosed(input: GraphInput, rt: Runtime, ids: seq<string>)
    requires VideoOf(input).id in ids
    requires forall k :: 0 <= k < |HubsOf(input, rt)| ==> HubsOf(input, rt)[k].id in ids
    requires forall m :: m in MembersOf(input, rt) ==> m.id in ids
    ensures forall e :: e in StructuralEdges(input, rt) ==> e.source in ids && e.target in ids
  {
    var groups := Groups(input);
    var hubs := HubsOf(input, rt);
    var ms := MembersOf(input, rt);
    GroupsNeedMembers(input);
    var ce := CategoryEdges(groups, VideoOf(input).id, |Filtered(input)|);
    var se := SentenceEdges(groups, hubs);
    assert StructuralEdges(input, rt) == ce + se;
    forall e | e in ce ensures e.source in ids && e.target in ids {
      var k :| 0 <= k < |ce| && ce[k] == e;
      assert e.target == hubs[k].id;
    }
    forall e | e in se ensures e.source in ids && e.target in ids {
      var i :| 0 <= i < |se| && se[i] == e;
      assert e.target == ms[i].id && ms[i] in ms;
      var k :| 0 <= k < |hubs| && NodeIds(hubs)[k] == e.source;
      assert e.source == hubs[k].id;
    }
  }

  lemma PairEdgeEnds(ms: seq<VectorMemory>, p: int, q: int, e: GraphEdge, rt: Runtime)
    requires PairEdge(ms, p, q, e, rt)
    ensures 0 <= p < q < |ms| && ms[p] in ms && ms[q] in ms
    ensures e.source == ms[p].id && e.target == ms[q].id && e.edgeType == SentenceSentence
  {
  }

  /** Similarity edges join two drawn memories. */
  lemma SimilarityClosed(ms: seq<VectorMemory>, rt: Runtime, ids: seq<string>)
    requires forall m :: m in ms ==> m.id in ids
    ensures forall e :: e in SimilarityEdges(ms, 0, rt) ==> e.source in ids && e.target in ids
  {
    SimilarityEdgesMembers(ms, 0, rt);
    forall e | e in SimilarityEdges(ms, 0, rt) ensures e.source in ids && e.target in ids {
      var p, q :| PairEdge(ms, p, q, e, rt);
      PairEdgeEnds(ms, p, q, e, rt);
    }
  }

  /** Search edges join the video node to a drawn memory. */
  lemma HighlightClosed(input: GraphInput, rt: Runtime, ids: seq<string>)
    requires VideoOf(input).id in ids
    requires forall m :: m in MembersOf(input, rt) ==> m.id in ids
    ensures forall e :: e in HighlightEdges(input, rt) ==> e.source in ids && e.target in ids
  {
  }

  /** Every edge of the build joins two of its nodes, so the canvas draws them all. */
  lemma EdgesClosed(input: GraphInput, rt: Runtime)
    ensures forall e :: e in EdgesOf(input, rt) ==> HasEndpoints(NodesOf(input, rt), e)
  {
    var ids := NodeIds(NodesOf(input, rt));
    NodeIdsOf(input, rt);
    StructuralClosed(input, rt, ids);
    SimilarityClosed(MembersOf(input, rt), rt, ids);
    HighlightClosed(input, rt, ids);
    var s := StructuralEdges(input, rt);
    var l := SimilarityEdges(MembersOf(input, rt), 0, rt);
    var h := HighlightEdges(input, rt);
    assert EdgesOf(input, rt) == s + l + h;
  }

  /** Collision avoidance leaves the sum of the sentence nodes' coordinates, and so their
      centroid, where the layout put it. */
  lemma SentenceCentroid(input: GraphInput, rt: Runtime)
    ensures |NodesOf(input, rt)| == 1 + |HubsOf(input, rt)| + |SentencesOf(input, rt)|
    ensures var drawn := NodesOf(input, rt)[1 + |HubsOf(input, rt)|..];
      && Collision.SumX(drawn) == Collision.SumX(SentencesOf(input, rt))
      && Collision.SumY(drawn) == Collision.SumY(SentencesOf(input, rt))
  {
    var sentences := SentencesOf(input, rt);
    var moved := Collision.Collide(sentences, MinSentenceDistance, rt.sqrt);
    ThreeParts(VideoOf(input), HubsOf(input, rt), moved);
    Collision.CollidePreservesCentroid(sentences, MinSentenceDistance, rt.sqrt);
  }
}
