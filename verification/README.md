# Semantic memory graph — a Dafny model

This project models the core of a video-analysis web application. The application stores
"vector memories" extracted from a video. Each memory is a sentence with an embedding and
metadata: category, emotion, timestamp and importance. The application draws these memories
as an interactive graph:

- a central video node;
- one category node per category, on a ring around the video node;
- one sentence node per memory, spiralling around its category node.

Edges join the video to each category and each category to its sentences. Further edges join
pairs of sentences whose combined semantic and metadata similarity passes a threshold. When
a search is active, highlight edges join the video to the matching sentences.

The model covers:

- **Similarity.** Cosine similarity of embeddings, embedding-string parsing, timestamp parsing,
  and metadata and combined similarity (`similarity.dfy`).
- **Styling constants.** Node colours, sentence sizes, edge visual properties and edge colours
  (`constants.dfy`).
- **The graph builder.** Filtering, grouping, placing nodes, building the four kinds of edge,
  and the three passes of collision avoidance (`graph_data.dfy`, `collision.dfy`). What the
  builder promises is stated in `graph_facts.dfy` and `graph_links.dfy`.
- **The view-state reducer.** Pan, wheel zoom, zoom in and out, centring, hover, selection,
  node dragging, touch, and fitting the graph to the viewport (`interactions.dfy`).
- **The canvas.** Hit testing, the mouse dispatch onto the reducer, edge drawing and sentence
  labels (`canvas.dfy`).
- **Index creation.** The validator of the `POST` handler that creates an index (`json.dfy`,
  `index_route.dfy`).
- **Moment extraction.** The `POST` handler that extracts moments from search results
  (`extract_route.dfy`).

How the JavaScript is represented:

- Numbers are Dafny `real`s.
- The three primitives the code takes from the platform are parameters of type `Runtime`:
  `Math.sqrt`, `Math.cos`/`Math.sin`, and `parseFloat`. Properties that need them assume
  `Valid(rt)`, which says the square root is the non-negative root and `cos² + sin² = 1`.
- `parseInt(s, 10)`, `trim`, `split`, `toLowerCase` and `includes` are modelled concretely in
  `text.dfy`.
- The builder groups with a JavaScript `Map`, and the extract route groups by reducing into an
  object. Both become one insertion-ordered `Seqs.GroupBy`.
- Looking a key up on an object literal, with `obj[key]` or `key in obj`, also finds the
  members every object inherits, such as `constructor` or `toString`. Such a lookup gives a
  `Base.Lookup`: an own string value, or an inherited member (`Base.IsInheritedName`). The
  sentence palette and the moment-type presets are read this way. The handler models the
  moment-type lookup as written; the evidently intended own-key version sits beside it (see
  "Findings").
- Mutable React state becomes an immutable `View` record, and each handler is a function from
  the old view to the new one.

## Model

| member | source | states |
|---|---|---|
| Similarity.CosineSimilarity | src/components/graph/similarity.ts:6-35 | vectors of different lengths are rejected, and a vector with a non-numeric component is rejected, each exactly when that condition holds |
| Similarity.ComputeCosine | src/components/graph/similarity.ts:11-35 | the accumulating loop over both vectors returns the same verdict and value as the closed-form cosine definition |
| Similarity.CosineBounded | src/components/graph/similarity.ts:28-34 | with a true square root, a computed cosine lies in [-1, 1] (Cauchy–Schwarz) |
| Similarity.CosineSymmetric | src/components/graph/similarity.ts:6-35 | swapping the vectors changes neither whether the cosine is defined nor its value |
| Similarity.CosineSelf | src/components/graph/similarity.ts:6-35 | a non-zero vector has cosine exactly 1 with itself |
| Similarity.CosineOpposite | src/components/graph/similarity.ts:6-35 | a non-zero vector has cosine exactly -1 with its negation |
| Similarity.CosineZeroVector | src/components/graph/similarity.ts:30-32 | an all-zero vector has cosine 0 with any vector of the same length instead of dividing by zero |
| Similarity.StripBrackets | src/components/graph/similarity.ts:79-80 | a leading `[` and a trailing `]` are each dropped when present, independently of each other; a string with neither is unchanged |
| Similarity.ParsePieces | src/components/graph/similarity.ts:81-87 | parsing fails exactly when some trimmed piece does not parse, and otherwise yields one number per piece, in order |
| Similarity.ParseEmbedding | src/components/graph/similarity.ts:65-95 | a missing embedding and an empty string give no vector; an array is taken as it is; a string is split on commas inside its brackets |
| Similarity.ParsePiecesRendered | src/components/graph/similarity.ts:81-87 | pieces rendered from numbers that `parseFloat` reads back parse to exactly those numbers |
| Similarity.ParsePiecesAll | src/components/graph/similarity.ts:81-87 | pieces that each parse to a number parse, as a whole, to exactly those numbers in order |
| Similarity.StripBracketsCases | src/components/graph/similarity.ts:79-80 | the bracketed and the bare form of the same body strip to that body |
| Similarity.ParseEmbeddingRoundTrip | src/components/graph/similarity.ts:65-95 | a vector written as a comma-separated list, with or without brackets, parses back to the same vector |
| Similarity.SentenceSimilarity | src/components/graph/similarity.ts:40-60 | the semantic similarity is never negative, and it is 0 when either embedding does not parse |
| Similarity.SentenceSimilarityCosine | src/components/graph/similarity.ts:40-60 | when both embeddings parse, a cosine that throws (lengths differ, or a component is NaN) is caught and gives 0; a computed cosine is floored at 0; so the similarity is positive exactly when the cosine is computed and positive |
| Similarity.SentenceSimilarityBounded | src/components/graph/similarity.ts:40-60 | with a true square root, the semantic similarity lies in [0, 1] |
| Similarity.SentenceSimilaritySymmetric | src/components/graph/similarity.ts:40-60 | the semantic similarity of two memories does not depend on their order |
| Similarity.SentenceSimilaritySelf | src/components/graph/similarity.ts:40-60 | a memory with a non-zero embedding is fully similar to itself |
| Similarity.ParseTimestamp | src/components/graph/similarity.ts:152-169 | a timestamp parses exactly when the part before the first dash, trimmed, is non-empty and has exactly one colon; the value is minutes × 60 + seconds of the two parsed integers |
| Similarity.ParseTimestampRoundTrip | src/components/graph/similarity.ts:152-169 | a clock `m:s`, optionally followed by `-` and an end time, parses to m × 60 + s |
| Similarity.ParseTimestampOfParts | src/components/graph/similarity.ts:155-162 | a cleaned timestamp made of two integer parts parses to their clock value |
| Similarity.ParseTimestampSecondsOnly | src/components/graph/similarity.ts:158-165 | a bare number of seconds without a colon is not a timestamp |
| Similarity.ParseTimestampNoColon | src/components/graph/similarity.ts:158-165 | any text without a dash or a colon is not a timestamp |
| Similarity.TimestampCredit | src/components/graph/similarity.ts:131-144 | the timestamp check earns no credit, half credit or full credit |
| Similarity.TimestampCreditValue | src/components/graph/similarity.ts:131-144 | full credit exactly when both timestamps parse to numbers less than 30 seconds apart, half credit exactly when they are 30 to under 120 seconds apart, and none when either is not a number or they are 120 seconds or more apart |
| Similarity.MatchScore | src/components/graph/similarity.ts:110-144 | the credit earned never exceeds the weight of the checks that apply |
| Similarity.MatchScoreValue | src/components/graph/similarity.ts:110-144 | the score reaches the full weight exactly when every check that applies is fully met (equal category, equal emotion, timestamps under 30 seconds apart), and is 0 exactly when no check that applies earns anything |
| Similarity.MatchScoreByCheck | src/components/graph/similarity.ts:110-144 | the checks are independent: the score is the sum of what each earns, which is 3 for an equal category, 2 for an equal emotion, the timestamp credit for two timestamps, and 0 for a check that does not apply or does not match |
| Similarity.MetadataSimilarity | src/components/graph/similarity.ts:100-147 | the metadata similarity lies in [0, 1], and it is 0 when either memory has no metadata or no check applies |
| Similarity.MetadataSimilarityValue | src/components/graph/similarity.ts:100-147 | when both memories have metadata and some check applies, the similarity times the weight of the applying checks is the score earned; it is 1 exactly when every applying check is fully met, and 0 exactly when either memory lacks metadata or no applying check earns anything |
| Similarity.MetadataSimilaritySymmetric | src/components/graph/similarity.ts:100-147 | the metadata similarity does not depend on the order of the memories |
| Similarity.MetadataSimilaritySelf | src/components/graph/similarity.ts:100-147 | a memory whose present fields all parse is fully similar to itself in metadata |
| Similarity.MetadataUnparsedTimestampCounts | src/components/graph/similarity.ts:131-146 | an unparseable timestamp still adds its weight to the denominator: a category match alone then scores 0.75, not 1 |
| Similarity.MetadataUnparsedExample | src/components/graph/similarity.ts:131-146 | two "action" memories with timestamps "soon" and "later" score 0.75 |
| Similarity.CombinedSimilarity | src/components/graph/similarity.ts:174-182 | the combined score lies between 0.7 × semantic and 0.7 × semantic + 0.3 |
| Similarity.CombinedSimilarityBounded | src/components/graph/similarity.ts:174-182 | with a true square root, the combined score lies in [0, 1] |
| Similarity.CombinedSimilaritySymmetric | src/components/graph/similarity.ts:174-182 | the combined score does not depend on the order of the memories |
| Similarity.MetadataAloneNeverLinks | src/components/graph/similarity.ts:174-182 | a pair can pass the graph's similarity-edge threshold only if its semantic similarity exceeds (threshold - 0.3) / 0.7, which is 3/7 for the threshold of 0.6; metadata alone never links two sentences |
| Constants.NodeColor | src/components/graph/constants.ts:84-98 | videos and categories get their fixed colours; a sentence whose category is one of the eight gets that palette colour, one whose category is an inherited member name such as "constructor" gets that inherited member, and any other sentence, like an unknown node type, the description grey |
| Constants.NodeColorInherited | src/components/graph/constants.ts:91-92 | a node's colour is an inherited member rather than a colour string exactly when it is a sentence whose category is an inherited member name |
| Constants.PaletteDomain | src/components/graph/constants.ts:84-98 | the sentence palette has an entry for exactly the eight known categories |
| Constants.SentenceSize | src/components/graph/constants.ts:100-107 | a sentence node's size lies between the small and the large sentence size |
| Constants.SentenceSizeMonotone | src/components/graph/constants.ts:100-107 | a longer sentence with at least the importance is never drawn smaller |
| Constants.SentenceSizeLengthSaturates | src/components/graph/constants.ts:100-107 | beyond 100 characters, the length no longer changes the size |
| Constants.SentenceSizeExtremes | src/components/graph/constants.ts:100-107 | the empty sentence with importance 0 gets the small size, and a long sentence with importance 1 gets the large size |
| Constants.ConnectionVisualProps | src/components/graph/constants.ts:109-120 | opacity, thickness, glow and pulse duration stay within their configured ranges for any similarity |
| Constants.ConnectionVisualPropsMonotone | src/components/graph/constants.ts:109-120 | a more similar connection is at least as opaque, thick and glowing, and pulses at least as fast |
| Constants.ConnectionVisualPropsClamps | src/components/graph/constants.ts:109-120 | similarities outside [0, 1] are styled like the nearest end of the range |
| Constants.KeyOf | src/components/graph/constants.ts:122-129 | a key string selects a known hue exactly when it is that key's spelling; any string that spells none of the five keys takes the fallback |
| Constants.KeySpellings | src/components/graph/constants.ts:122-129 | each of the five known keys is selected by its own spelling and by no other string |
| Constants.EdgeColor | src/components/graph/constants.ts:122-134 | the hue is one of the five configured hues, and saturation and lightness stay in range for a similarity in [0, 1] |
| Constants.EdgeHuesDistinct | src/components/graph/constants.ts:122-134 | the four edge types get four distinct hues, none of them the search hue; the video-to-sentence hue is also the one any unknown key falls back to |
| Constants.EdgeColorMonotone | src/components/graph/constants.ts:122-134 | a more similar edge of the same type is at least as saturated and light, with the same hue |
| Constants.ConstantsConsistent | src/components/graph/constants.ts:39-82 | the layout constants agree with the node sizes and are ordered: sentence sizes step by 16, the thresholds and zoom limits are in order, and the cluster radii grow outwards |
| GraphData.FilterMemories | src/components/graph/hooks/use-graph-data.ts:37-42 | without a filter every memory is kept; with one, exactly the memories whose own category equals it are kept, drawn from the input |
| GraphData.FilterMemoriesAppend | src/components/graph/hooks/use-graph-data.ts:37-42 | filtering works memory by memory: the filter of a concatenation is the concatenation of the filters, and a single memory is kept exactly when there is no filter or its category equals it, so the survivors keep their input order |
| GraphData.FilterMemoriesCounts | src/components/graph/hooks/use-graph-data.ts:37-42 | every copy of a kept memory is kept, and no copy of any other |
| Seqs.SelectAppend | src/components/graph/hooks/use-graph-data.ts:37-42 | selecting by key distributes over concatenation |
| Seqs.SelectCount | src/components/graph/hooks/use-graph-data.ts:37-42 | selecting by key keeps each matching item as often as it occurs and drops every other |
| GraphData.DescriptionFilterMismatch | src/components/graph/hooks/use-graph-data.ts:37-48 | a memory without a category is grouped as "description", yet a "description" filter drops it |
| GraphData.CategoryWeight | src/components/graph/hooks/use-graph-data.ts:115 | a category edge's weight is one tenth of its count, saturating at 1 from ten memories on |
| GraphData.Share | src/components/graph/hooks/use-graph-data.ts:119 | a category edge's importance is its share of the filtered memories |
| GraphData.FindCategoryNode | src/components/graph/hooks/use-graph-data.ts:142-146 | the lookup finds a category node of the category when there is one, and reports none only when no node has it |
| GraphData.Importance | src/components/graph/hooks/use-graph-data.ts:150 | a sentence's importance is never 0, and it is the metadata importance when that is present and non-zero |
| GraphData.ImportanceZeroFallsThrough | src/components/graph/hooks/use-graph-data.ts:150 | an explicit importance of 0 is skipped in favour of the confidence, or of 0.5 when the confidence is missing or 0 |
| GraphData.SpiralRadius | src/components/graph/hooks/use-graph-data.ts:154-155 | sentences sit on three rings of radius 60, 120 and 180, cycling with their index |
| GraphData.SentenceNodes | src/components/graph/hooks/use-graph-data.ts:141-175 | one sentence node per placed memory, in order, carrying the memory, its sized circle, its explicit position if any, and its drag flag |
| GraphData.SentenceEdges | src/components/graph/hooks/use-graph-data.ts:177-191 | one category-to-sentence edge per placed memory, from a category node to the memory, weighted by its importance |
| GraphData.RowEdgesMembers | src/components/graph/hooks/use-graph-data.ts:202-222 | the inner loop for sentence i emits exactly the similarity edges from i to each later sentence that passes the threshold |
| GraphData.RowEdgesNext | src/components/graph/hooks/use-graph-data.ts:202-222 | one more inner-loop step keeps the row exact: the new pair's edge is emitted exactly when the pair passes the threshold |
| GraphData.SimilarityEdgesMembers | src/components/graph/hooks/use-graph-data.ts:198-223 | an edge is among those the double loop emits exactly when it is the similarity edge of an ordered pair p < q that passes the threshold |
| GraphData.RowEdgesPairs | src/components/graph/hooks/use-graph-data.ts:202-222 | the ends of the inner loop's edges for sentence i are the ids of the later sentences that pass the threshold with it, in loop order |
| GraphData.SimilarityEdgesPairs | src/components/graph/hooks/use-graph-data.ts:198-223 | the ends of the double loop's edges are the ids of the threshold-passing pairs p < q, in loop order |
| GraphData.SimilarityPairsCount | src/components/graph/hooks/use-graph-data.ts:198-223 | with distinct ids, the pairs the double loop visits from position i on contain the ids of positions p and q once when i <= p < q and the pair passes, and not at all otherwise |
| GraphData.SimilarityEdgesCount | src/components/graph/hooks/use-graph-data.ts:198-223 | with distinct ids, the double loop emits exactly one edge from the p-th to the q-th sentence when p < q and the pair passes the threshold, and none otherwise |
| GraphData.NormalizedQuery | src/components/graph/hooks/use-graph-data.ts:226-227 | a search is active exactly when the query is present and not blank |
| GraphData.SearchEdges | src/components/graph/hooks/use-graph-data.ts:229-249 | the highlight edges are exactly the video-to-sentence edges of the sentences containing the query, at most one per sentence |
| GraphData.BuildGraph | src/components/graph/hooks/use-graph-data.ts:25-258 | the hook itself: the graph has no nodes exactly when there are no memories, and then no edges either; otherwise the video node comes first. The video, category and moved sentence nodes and the four edge runs are stated by the GraphFacts and GraphLinks rows |
| GraphFacts.BuildEmpty | src/components/graph/hooks/use-graph-data.ts:28-31 | no memories give an empty graph |
| GraphFacts.BuildFilteredOut | src/components/graph/hooks/use-graph-data.ts:37-74 | a filter that matches no memory leaves only the video node, counting zero sentences, and no edges |
| GraphFacts.BuildParts | src/components/graph/hooks/use-graph-data.ts:33-258 | a non-empty build returns the video, category and sentence nodes and the four edge runs |
| GraphFacts.MembersAreFiltered | src/components/graph/hooks/use-graph-data.ts:130-146 | the sentences drawn are the filtered memories regrouped by category: every one of them, each once |
| GraphFacts.MovedIds | src/components/graph/hooks/use-graph-data.ts:253 | collision avoidance keeps exactly the filtered memories' ids on the sentence nodes |
| GraphFacts.BuildNodeCounts | src/components/graph/hooks/use-graph-data.ts:53-175 | the graph has one video node first, then one node per category, then one sentence node per filtered memory, carrying exactly those memories' ids |
| GraphFacts.BuildEdgeCounts | src/components/graph/hooks/use-graph-data.ts:111-191 | there is one video-to-category edge per category and one category-to-sentence edge per filtered memory |
| GraphFacts.EdgeKinds | src/components/graph/hooks/use-graph-data.ts:111-247 | each of the four edge runs carries only its own edge type |
| GraphFacts.EdgesSplit | src/components/graph/hooks/use-graph-data.ts:111-247 | the edges are the category, sentence, similarity and highlight runs, in that order |
| GraphFacts.GroupsCount | src/components/graph/hooks/use-graph-data.ts:45-50 | the builder makes one group for each distinct category key among the filtered memories |
| GraphFacts.GroupCount | src/components/graph/hooks/use-graph-data.ts:45-50 | each group holds exactly the filtered memories with its key |
| GraphFacts.VideoPlacement | src/components/graph/hooks/use-graph-data.ts:61-72 | the video node sits at its explicit position if it has one, and at the centre otherwise |
| GraphFacts.HubPlacement | src/components/graph/hooks/use-graph-data.ts:80-105 | the k-th of n category nodes sits at its explicit position or at angle k/n of a full turn on the category ring around the video |
| GraphFacts.CategoryPlacement | src/components/graph/hooks/use-graph-data.ts:80-108 | the (k+1)-th node of the graph is the k-th category's node, counting its memories, on the category ring unless it was dragged |
| GraphFacts.SentencePlacement | src/components/graph/hooks/use-graph-data.ts:148-166 | the idx-th sentence of a group sits at its explicit position or on its spiral ring around the category node |
| GraphFacts.CategoryEdgeWeight | src/components/graph/hooks/use-graph-data.ts:111-120 | the k-th edge joins the video to the k-th category node, weighted by the category's count and share |
| GraphFacts.CategoryEdgeIsRun | src/components/graph/hooks/use-graph-data.ts:111-120 | the category edges come first in the edge list, one per group, and a group implies a filtered memory |
| GraphFacts.SentenceEdgeWeight | src/components/graph/hooks/use-graph-data.ts:177-191 | after the category edges, the i-th edge joins a category node to the i-th drawn memory, weighted by its importance |
| GraphFacts.SentenceEdgeIsRun | src/components/graph/hooks/use-graph-data.ts:177-191 | the category-to-sentence edges come right after the category edges, in drawing order |
| GraphLinks.MembersDistinct | src/components/graph/hooks/use-graph-data.ts:130-146 | distinct memory ids in the input stay distinct among the drawn sentences |
| GraphLinks.EdgeSources | src/components/graph/hooks/use-graph-data.ts:111-247 | every edge of the graph comes from one of the four runs |
| GraphLinks.SimilarityEdgesExact | src/components/graph/hooks/use-graph-data.ts:198-223 | the sentence-to-sentence edges of the graph are exactly the threshold-passing pairs of drawn sentences |
| GraphLinks.SimilarityPairIff | src/components/graph/hooks/use-graph-data.ts:198-223 | with distinct ids, an earlier sentence is linked to a later one exactly when their combined similarity passes the threshold, and never in the reverse direction |
| GraphLinks.SimilarityEdgeOnce | src/components/graph/hooks/use-graph-data.ts:198-223 | with distinct ids, the whole graph has exactly one sentence-to-sentence edge from the p-th to the q-th drawn sentence when p < q and the pair passes the threshold, and none otherwise |
| GraphLinks.SearchEdgesHits | src/components/graph/hooks/use-graph-data.ts:229-249 | the highlight edges to an id are as many as the memories with that id that contain the query |
| GraphLinks.HitsUnique | src/components/graph/hooks/use-graph-data.ts:229-249 | with distinct ids, each memory is matched at most once |
| GraphLinks.HighlightsOnlyFromSearch | src/components/graph/hooks/use-graph-data.ts:225-250 | only the search run contributes video-to-sentence edges |
| GraphLinks.SearchExactlyOnce | src/components/graph/hooks/use-graph-data.ts:225-250 | with distinct ids, a drawn sentence has exactly one highlight edge if the active query occurs in it, and none otherwise |
| GraphLinks.HighlightShape | src/components/graph/hooks/use-graph-data.ts:233-247 | every highlight edge starts at the video node, has weight 1, needs an active query, and ends at a drawn sentence containing it |
| GraphLinks.SentenceNodesView | src/components/graph/hooks/use-graph-data.ts:148-175 | the sentence nodes depend on the input only through the explicit positions and the dragged node |
| GraphLinks.SearchOnlyAdds | src/components/graph/hooks/use-graph-data.ts:225-250 | a search changes no node and no structural or similarity edge; it only appends highlight edges |
| GraphLinks.BuildFlags | src/components/graph/hooks/use-graph-data.ts:70-171 | no node is built hovered, and exactly the node whose id is being dragged is marked dragging |
| GraphLinks.NodeIdsOf | src/components/graph/hooks/use-graph-data.ts:74-175 | the video, every category node and every drawn memory have a node in the graph |
| GraphLinks.StructuralClosed | src/components/graph/hooks/use-graph-data.ts:111-191 | both ends of every structural edge are among the given node ids |
| GraphLinks.SimilarityClosed | src/components/graph/hooks/use-graph-data.ts:198-223 | both ends of every similarity edge are drawn memories |
| GraphLinks.HighlightClosed | src/components/graph/hooks/use-graph-data.ts:229-249 | both ends of every highlight edge are the video or a drawn memory |
| GraphLinks.EdgesClosed | src/components/graph/hooks/use-graph-data.ts:33-258 | every edge of a built graph joins two nodes of that graph |
| GraphLinks.SentenceCentroid | src/components/graph/hooks/use-graph-data.ts:253 | collision avoidance leaves the sum of the sentence nodes' coordinates, and so their centroid, unchanged |
| Collision.Separation | src/components/graph/hooks/use-graph-data.ts:283 | the distance used is never 0: a zero distance is replaced by 1 |
| Collision.Push | src/components/graph/hooks/use-graph-data.ts:285-294 | a push moves only the two nodes' positions, keeps their midpoint, and does nothing to a pair already far enough apart |
| Collision.PushCoincident | src/components/graph/hooks/use-graph-data.ts:283-294 | two nodes at the same point are not separated, because the direction of the push is zero |
| Collision.PushSpreads | src/components/graph/hooks/use-graph-data.ts:285-294 | a close pair's offset is scaled by (distance + minimum) / (2 × distance), along the same direction |
| Collision.PushMoves | src/components/graph/hooks/use-graph-data.ts:285-294 | a close pair that differs in x is moved apart in x |
| Collision.Step | src/components/graph/hooks/use-graph-data.ts:278-295 | one pair step only changes node positions |
| Collision.InnerPass | src/components/graph/hooks/use-graph-data.ts:278-295 | the inner loop over later nodes only changes node positions |
| Collision.OuterPass | src/components/graph/hooks/use-graph-data.ts:277-296 | one pass over all pairs only changes node positions |
| Collision.Passes | src/components/graph/hooks/use-graph-data.ts:276-297 | any number of passes only changes node positions |
| Collision.Collide | src/components/graph/hooks/use-graph-data.ts:273-297 | collision avoidance keeps the same nodes in the same order, only moved |
| Collision.StepSums | src/components/graph/hooks/use-graph-data.ts:290-293 | a pair step keeps the sums of the x and of the y coordinates |
| Collision.InnerPassSums | src/components/graph/hooks/use-graph-data.ts:278-295 | the inner loop keeps the coordinate sums |
| Collision.OuterPassSums | src/components/graph/hooks/use-graph-data.ts:277-296 | a full pass keeps the coordinate sums |
| Collision.PassesSums | src/components/graph/hooks/use-graph-data.ts:276-297 | any number of passes keeps the coordinate sums |
| Collision.CollidePreservesCentroid | src/components/graph/hooks/use-graph-data.ts:273-297 | collision avoidance keeps the centroid of the nodes |
| Collision.CollideSpread | src/components/graph/hooks/use-graph-data.ts:273-297 | nodes already at least the minimum distance apart are left exactly where they are |
| Collision.ApplyCollisionAvoidance | src/components/graph/hooks/use-graph-data.ts:273-297 | the three nested loops compute the recursive definition: the same nodes, only moved, with their coordinate sums kept |
| Interactions.Initial | src/components/graph/hooks/use-graph-interactions.ts:8-18 | the initial view draws the world unchanged, within the zoom limits, with no overrides, pan or drag |
| Interactions.WorldScreenRoundTrip | src/components/graph/hooks/use-graph-interactions.ts:64-68 | screen-to-world and world-to-screen are inverse to each other for every view |
| Interactions.PanStart | src/components/graph/hooks/use-graph-interactions.ts:21-27 | a pan starts at the pointer unless a node is being dragged, and leaves the camera where it is |
| Interactions.PanMove | src/components/graph/hooks/use-graph-interactions.ts:29-39 | while panning, the pan moves by exactly the pointer's movement since the last event; otherwise nothing changes |
| Interactions.PanEnd | src/components/graph/hooks/use-graph-interactions.ts:41-44 | ending a pan clears the gesture and keeps the camera |
| Interactions.PanMovesTotal | src/components/graph/hooks/use-graph-interactions.ts:29-39 | a sequence of pan moves shifts the pan by the total pointer movement from the start to the last point |
| Interactions.ZoomAbout | src/components/graph/hooks/use-graph-interactions.ts:64-70 | zooming about an anchor keeps the world point under that anchor fixed |
| Interactions.Wheel | src/components/graph/hooks/use-graph-interactions.ts:47-73 | a wheel event scales the zoom by 0.9 or 1.1 within the limits, and keeps the world point under the pointer fixed |
| Interactions.WheelDirection | src/components/graph/hooks/use-graph-interactions.ts:54-59 | scrolling down never zooms in and scrolling up never zooms out, strictly unless at the limit |
| Interactions.ZoomIn | src/components/graph/hooks/use-graph-interactions.ts:147-159 | zoom in multiplies by 1.2 up to the maximum, keeping the given centre fixed |
| Interactions.ZoomOut | src/components/graph/hooks/use-graph-interactions.ts:161-173 | zoom out multiplies by 0.8 down to the minimum, keeping the given centre fixed |
| Interactions.DoubleClick | src/components/graph/hooks/use-graph-interactions.ts:111-116 | a double click resets the camera so that every world point is drawn where it is |
| Interactions.CenterOn | src/components/graph/hooks/use-graph-interactions.ts:175-181 | centring draws the given world point at the middle of the viewport, at the same zoom |
| Interactions.CenteringPan | src/components/graph/hooks/use-graph-interactions.ts:176-177 | the pan chosen places the coordinate at half the extent |
| Interactions.Hover | src/components/graph/hooks/use-graph-interactions.ts:76-78 | hovering records the node and changes nothing else |
| Interactions.Click | src/components/graph/hooks/use-graph-interactions.ts:80-82 | clicking a node selects it unless it is already selected, in which case it is deselected |
| Interactions.ClickTwice | src/components/graph/hooks/use-graph-interactions.ts:80-82 | clicking the same node twice restores its selection state, except that another node's selection is lost |
| Interactions.DragStart | src/components/graph/hooks/use-graph-interactions.ts:84-88 | a drag records the node and the pointer, and changes nothing else |
| Interactions.DragMove | src/components/graph/hooks/use-graph-interactions.ts:90-104 | a drag move shifts only the dragged node's override, by the pointer movement divided by the zoom |
| Interactions.FirstDragFromOrigin | src/components/graph/hooks/use-graph-interactions.ts:97 | a node without an override is dragged from the origin, not from where it is drawn |
| Interactions.DragMovesTotal | src/components/graph/hooks/use-graph-interactions.ts:90-104 | a sequence of drag moves shifts the dragged node by the total pointer movement over the zoom, leaving every other override alone |
| Interactions.DragEnd | src/components/graph/hooks/use-graph-interactions.ts:106-109 | ending a drag clears the drag and keeps everything else, overrides included |
| Interactions.TouchStart | src/components/graph/hooks/use-graph-interactions.ts:119-125 | one finger starts a pan at the touch; any other number of touches is ignored |
| Interactions.TouchMove | src/components/graph/hooks/use-graph-interactions.ts:127-139 | a one-finger move pans like the mouse; any other number of touches is ignored |
| Interactions.TouchEnd | src/components/graph/hooks/use-graph-interactions.ts:141-144 | lifting the fingers ends the pan like the mouse |
| Interactions.BoundingBox | src/components/graph/hooks/use-graph-interactions.ts:194-203 | the box contains every node's circle |
| Interactions.BoundingBoxTight | src/components/graph/hooks/use-graph-interactions.ts:194-203 | each side of the box touches some node's circle |
| Interactions.FitZoom | src/components/graph/hooks/use-graph-interactions.ts:210-216 | the fitted zoom stays within the zoom limits |
| Interactions.FitView | src/components/graph/hooks/use-graph-interactions.ts:205-219 | fitting uses the fitted zoom and draws the box's centre at the middle of the viewport |
| Interactions.AutoFit | src/components/graph/hooks/use-graph-interactions.ts:183-225 | no nodes leave the view unchanged; otherwise the zoom is the clamped fit of the padded box and the box's centre is drawn at the middle of the viewport |
| Interactions.FitViewFits | src/components/graph/hooks/use-graph-interactions.ts:205-219 | when the fitted zoom is not raised by the lower limit, every node in the box is drawn inside the padded viewport |
| Interactions.AutoFitFits | src/components/graph/hooks/use-graph-interactions.ts:183-225 | after an auto-fit whose zoom is not raised by the lower limit, every node is drawn inside the padded viewport |
| Interactions.ScaledInside | src/components/graph/hooks/use-graph-interactions.ts:210-219 | an interval that fits at a zoom, centred in an extent, stays within its padding |
| Interactions.Step | src/components/graph/hooks/use-graph-interactions.ts:21-225 | no handler except drag move touches the position overrides, and none ever removes one |
| Interactions.StepKeepsZoomInRange | src/components/graph/hooks/use-graph-interactions.ts:47-225 | every handler keeps the zoom within its limits |
| Interactions.RunKeepsInvariants | src/components/graph/hooks/use-graph-interactions.ts:8-225 | any sequence of events keeps the zoom within its limits and never forgets a dragged node's override |
| Canvas.NodeAt | src/components/graph/graph-canvas.tsx:43-55 | the hit test reports none exactly when no node's circle contains the point, and otherwise the topmost node that does |
| Canvas.HitSquared | src/components/graph/graph-canvas.tsx:46-50 | with a true square root, a point hits a node exactly when its squared distance is at most the squared radius |
| Canvas.NodeAtPosition | src/components/graph/graph-canvas.tsx:32-56 | without a rendered element nothing is hit; otherwise the pointer is converted to world coordinates and hit-tested |
| Canvas.NodeAtFindsDrawn | src/components/graph/graph-canvas.tsx:32-56 | clicking on the screen position of the last-drawn node finds that node |
| Canvas.MouseMove | src/components/graph/graph-canvas.tsx:59-69 | a mouse move drags while a node is dragged and pans otherwise, then hovers the node under the pointer |
| Canvas.MouseDown | src/components/graph/graph-canvas.tsx:71-79 | pressing on a node starts dragging it; pressing on empty space starts a pan |
| Canvas.MouseUp | src/components/graph/graph-canvas.tsx:81-87 | releasing ends the drag if there is one and the pan otherwise, without moving the camera or the overrides |
| Canvas.MouseClick | src/components/graph/graph-canvas.tsx:89-94 | a click on a node toggles its selection; a click on empty space does nothing |
| Canvas.ClickAfterDrag | src/components/graph/graph-canvas.tsx:81-94 | the click that follows releasing a dragged node toggles that node's selection |
| Canvas.FindNode | src/components/graph/graph-canvas.tsx:247-248 | the lookup finds the first node with the id, or reports none exactly when no node has it |
| Canvas.Dash | src/components/graph/graph-canvas.tsx:256-265 | only sentence-to-sentence and category-to-sentence edges are dashed |
| Canvas.GlowRadius | src/components/graph/graph-canvas.tsx:279 | an edge glows exactly when its glow is positive, with three times that radius |
| Canvas.DrawEdge | src/components/graph/graph-canvas.tsx:246-283 | an edge is drawn exactly when both its ends are nodes, from the first node with the source id to the first with the target id, in the edge's colour, thickness and opacity |
| Canvas.DrawEdges | src/components/graph/graph-canvas.tsx:246-283 | no more lines than edges, and one line per edge when every edge has both ends |
| Canvas.DrawEdgesAppend | src/components/graph/graph-canvas.tsx:246-283 | edges are drawn one by one: the lines of a concatenation are the lines of its parts, in order |
| Canvas.DrawEdgesOne | src/components/graph/graph-canvas.tsx:246-283 | a single edge gives its line exactly when both its ends exist, and nothing otherwise |
| Canvas.DrawEdgesMembers | src/components/graph/graph-canvas.tsx:246-283 | the drawn lines are exactly the lines of the edges whose ends both exist |
| Canvas.BuiltEdgesDrawn | src/components/graph/graph-canvas.tsx:246-283 | every edge of a built graph is drawn; no line is dropped for a missing end |
| Canvas.Prefix | src/components/graph/graph-canvas.tsx:194 | `substring(0, k)` gives the prefix of length k, with k clamped to the string |
| Canvas.DisplayText | src/components/graph/graph-canvas.tsx:192-195 | a sentence that fits is shown whole; a longer one is cut to its prefix of the allowed length and ends with "..." |
| Canvas.Label | src/components/graph/graph-canvas.tsx:208-219 | a sentence node shows a label exactly when it is larger than 40 |
| Canvas.LabelShape | src/components/graph/graph-canvas.tsx:217 | the label is the first three words of the display text, a prefix of it |
| Canvas.ShortLabelWhole | src/components/graph/graph-canvas.tsx:217 | a display text of at most three words is shown whole |
| Canvas.FontSize | src/components/graph/graph-canvas.tsx:214 | the label's font size is the smaller of 10 and a quarter of the node size |
| IndexRoute.Status | src/app/api/indexes/route.ts:71-173 | status 200 means the index is created and 400 means a bad request |
| IndexRoute.Message | src/app/api/indexes/route.ts:80-125 | every rejection has a fixed message except those naming the bad model or modality |
| IndexRoute.FirstBadOption | src/app/api/indexes/route.ts:119-126 | no option is reported exactly when all are known modalities; otherwise the first unknown one is |
| IndexRoute.CheckModelValid | src/app/api/indexes/route.ts:95-127 | a model configuration passes the checks exactly when it names a known model and lists at least one option, all known modalities |
| IndexRoute.AllPass | src/app/api/indexes/route.ts:95-127 | the models pass exactly when each one is well-formed |
| IndexRoute.FirstFault | src/app/api/indexes/route.ts:95-127 | no fault is reported exactly when every model passes; otherwise it is the fault of the first model that fails |
| IndexRoute.CheckModels | src/app/api/indexes/route.ts:87-127 | the models check ends in a bad request or a crash whenever it rejects |
| IndexRoute.CheckModelsIff | src/app/api/indexes/route.ts:87-127 | the models check passes exactly for a non-empty array of well-formed configurations, and then keeps them |
| IndexRoute.NameChecks | src/app/api/indexes/route.ts:78-85 | the name check passes exactly for a non-blank string name |
| IndexRoute.UnnamedRejected | src/app/api/indexes/route.ts:78-85 | a body without a non-blank string name is rejected |
| IndexRoute.NamedValidated | src/app/api/indexes/route.ts:78-127 | a body with a name is accepted exactly when its models are a non-empty array of well-formed configurations |
| IndexRoute.Validate | src/app/api/indexes/route.ts:78-127 | a rejected body ends in a bad request or a crash |
| IndexRoute.ValidateIff | src/app/api/indexes/route.ts:78-127 | the validator accepts exactly the well-formed bodies, and then yields the name as given and the models |
| IndexRoute.Post | src/app/api/indexes/route.ts:66-173 | an anonymous caller is unauthorized; an unreadable body fails; a rejected body gets the rejection |
| IndexRoute.CreateIff | src/app/api/indexes/route.ts:66-166 | an index is created exactly for a signed-in caller, a well-formed body and a name no existing index has, with that name and those models |
| IndexRoute.ConflictOnlyWhenValid | src/app/api/indexes/route.ts:129-140 | a conflict is reported exactly for a valid request whose name is already taken |
| IndexRoute.FirstFailingModelDecides | src/app/api/indexes/route.ts:95-127 | a per-model rejection is the rejection of a model all of whose predecessors pass |
| IndexRoute.BlankNameFirst | src/app/api/indexes/route.ts:80-85 | a blank name is rejected before the models are looked at |
| IndexRoute.PaddedBodyValid | src/app/api/indexes/route.ts:78-127 | a name with a leading space is still a valid name |
| IndexRoute.PaddedBodyValidates | src/app/api/indexes/route.ts:78-127 | the name is checked trimmed but kept untrimmed |
| IndexRoute.PaddedNameIsNew | src/app/api/indexes/route.ts:129-143 | " demo" does not clash with an existing "demo" and is created with its leading space |
| ExtractRoute.Status | src/app/api/videos/extract/route.ts:22-62 | an index that does not exist (IndexNotFound) is 404; every other rejection, a missing index id included, is 400 |
| ExtractRoute.Message | src/app/api/videos/extract/route.ts:22-62 | each rejection has a fixed, non-empty error text |
| ExtractRoute.MessagesDistinct | src/app/api/videos/extract/route.ts:22-62 | the four rejection texts are pairwise different, so the text identifies the rejection |
| ExtractRoute.PresetLookupAsWritten | src/app/api/videos/extract/route.ts:46-55 | indexing the preset object finds something for the six moment types and for every inherited member name |
| ExtractRoute.InheritedKeyPassesCheck | src/app/api/videos/extract/route.ts:55-62 | "toString" is not a moment type, yet the lookup as written finds it, while the own-key lookup rejects it |
| ExtractRoute.PresetQuery | src/app/api/videos/extract/route.ts:46-55 | only the six moment types have a query, their non-empty preset text, which agrees with the lookup as written |
| ExtractRoute.PlanFrom | src/app/api/videos/extract/route.ts:22-70 | the checks reject in order: no query, no index id, unknown index, then nothing found for the moment type without a custom query; a plan searches the index in both modalities, 50 per page, at the given confidence or 0.7, for the custom query or else what the lookup found |
| ExtractRoute.Plan | src/app/api/videos/extract/route.ts:22-70 | the handler as written plans with the preset lookup as written, inherited member names included |
| ExtractRoute.PlanIntended | src/app/api/videos/extract/route.ts:46-62 | the corrected handler plans with the own-key lookup, so a planned query is always a text |
| ExtractRoute.QueryPrecedenceAsWritten | src/app/api/videos/extract/route.ts:55-62 | as written, a custom query wins; without one, the request is planned exactly when the moment type is one of the six or an inherited member name, searching for the preset text or the inherited member |
| ExtractRoute.QueryPrecedence | src/app/api/videos/extract/route.ts:55-62 | as intended, a custom query wins; without one, the request is planned exactly when the moment type is one of the six, with its preset text, and is otherwise rejected as an invalid moment type |
| ExtractRoute.PlansAgree | src/app/api/videos/extract/route.ts:55-62 | the handler as written and as intended plan differently exactly for a request with a found index, no custom query and an inherited member name as its moment type |
| ExtractRoute.InheritedMomentTypeSearches | src/app/api/videos/extract/route.ts:55-70 | moment type "toString" with no custom query searches for the inherited member as written, and is a 400 invalid moment type as intended |
| ExtractRoute.Kept | src/app/api/videos/extract/route.ts:74-78 | the kept results are exactly those whose video id is wanted |
| ExtractRoute.KeptAppend | src/app/api/videos/extract/route.ts:74-78 | filtering distributes over concatenation, so it keeps the results' order |
| ExtractRoute.KeptAll | src/app/api/videos/extract/route.ts:74-78 | results that are all wanted are kept whole |
| ExtractRoute.FilterHits | src/app/api/videos/extract/route.ts:72-78 | without video ids all results are kept; with some, exactly the results of those videos |
| ExtractRoute.ToMoment | src/app/api/videos/extract/route.ts:80-89 | a moment copies its result's fields, and its start plus its duration is its end |
| ExtractRoute.MissingVideoIdKey | src/app/api/videos/extract/route.ts:91-98 | a moment without a video id lands in the same group as a video literally named "undefined" |
| ExtractRoute.Respond | src/app/api/videos/extract/route.ts:100-107 | the totals count the moments and the groups, the query is the planned one, and the moment type defaults to "custom" |
| ExtractRoute.Answer | src/app/api/videos/extract/route.ts:22-107 | a rejected plan is the response's error; a planned search is answered by the response to its results |
| ExtractRoute.Extract | src/app/api/videos/extract/route.ts:4-107 | the handler as written rejects exactly when there is no query, no index id, no such index, or, without a custom query, a moment type that is neither one of the six nor an inherited member name; otherwise the response carries the custom query or what the lookup found |
| ExtractRoute.ExtractIntended | src/app/api/videos/extract/route.ts:4-107 | the corrected handler answers only with a text query |
| ExtractRoute.ExtractAgrees | src/app/api/videos/extract/route.ts:4-107 | the handler as written and as intended give the same answer to every request except one whose moment type, with no custom query, is an inherited member name |
| ExtractRoute.MomentsFollowHits | src/app/api/videos/extract/route.ts:72-89 | the moments are the kept results, one each and in order; without video ids there is one per result |
| ExtractRoute.GroupsPartition | src/app/api/videos/extract/route.ts:91-104 | the groups partition the moments by video, each group holding its video's moments in order, no group empty, no key repeated, and the video count is the number of distinct keys |
| Seqs.GroupByItems | src/components/graph/hooks/use-graph-data.ts:130-138 | each group holds exactly the items with its key, in input order |
| Seqs.GroupByKeysDistinct | src/components/graph/hooks/use-graph-data.ts:130-138 | no key has two groups |
| Seqs.GroupByPermutes | src/components/graph/hooks/use-graph-data.ts:130-138 | the groups together hold every item exactly once |
| Seqs.GroupsNonEmpty | src/components/graph/hooks/use-graph-data.ts:130-138 | a group is created only with its first item |
| Text.ParseIntShowNat | src/components/graph/similarity.ts:160-161 | `parseInt` reads back the decimal digits of any natural number |
| Text.TrimBlank | src/components/graph/hooks/use-graph-data.ts:226 | a string trims to empty exactly when it is all white space |
| Text.SplitJoin | src/components/graph/similarity.ts:81 | splitting a joined list of pieces free of the separator gives the pieces back |

## Left out

- React itself is not modelled: hooks, memoisation, re-rendering and the SVG markup. This
  includes `renderNode`'s styling of video and category nodes, hover opacity and search rings.
- Floating point is not modelled: numbers are reals. NaN is modelled only where it changes a
  branch: a non-numeric embedding component, and an unparsed integer in a timestamp.
  `Infinity` from a division by zero is not modelled either.
- `Math.PI`, `Math.cos`, `Math.sin`, `Math.sqrt` and `parseFloat` are parameters. Their values
  are constrained only by `Valid(rt)`, and only where a property needs it.
- The network is left out: the search call, the index lookup, index creation, listing the
  existing indexes and storing the index for the user. Their results are parameters: whether
  the index exists, the search data, and the existing names. Any failure of these calls
  becomes the 500 path.
- Console logging is left out, and so are the error details of the 500 responses.
- The `GET` handler of the indexes route is not part of this model.
- The texts of the 400 responses that interpolate the offending model name or modality are left
  out. The rejection carries the offending value instead.
- The extract route's destructuring of the body is not modelled. The fields arrive already typed
  as optional strings, an optional list of video ids and an optional number, and a missing
  `videoIds` means the empty list. A body that is not an object, or fields of other JSON types,
  are not modelled.
- JavaScript orders an object's integer-like keys before its other keys. `groupedByVideo` is
  modelled in insertion order, and so is `Object.keys`.
- ExtractRoute.GroupsPartition, ExtractRoute.Respond, ExtractRoute.Extract: video ids that are
  inherited member names, such as "constructor", make `acc[videoId]` find an inherited function,
  and `push` then throws, which the handler answers with a 500. That path is not modelled;
  grouping treats every id as an own key, so these members answer such a search normally.
- An inherited member found for the moment type is sent to the search service as the query.
  What the service answers to a query that is not a text is a parameter like any other search
  answer, and its failure is the 500 path. How `NextResponse.json` writes an inherited member
  into the response's `query` field (a function is dropped) is not modelled; the response keeps
  the lookup's result.
- Constants.KeyOf: `getEdgeColor` looks its key up on an object literal, so an inherited name
  such as "toString" would select a function rather than the fallback hue. Keys are read as the
  five known spellings or "other"; the graph builder passes only known keys.
- String lengths are counted in characters, not UTF-16 code units. `toLowerCase` is ASCII only.
- Interactions.AutoFit: it requires every node to have a positive size. The source also accepts
  zero-size nodes, where an empty box divides by zero. The builder only produces positive sizes.
- Interactions.Step: the reducer over events inherits AutoFit's positive-size requirement for
  auto-fit events.
- The canvas element and its bounding rectangle are a parameter. A missing element, for which
  the hit test returns `null`, is an absent rectangle.
- Collision avoidance mutates the sentence node objects in place, and those objects are already
  in the node list. The model returns the moved nodes instead and places them in the list where
  the sentence nodes stand, which is the same result.
- Similarity.CosineBounded: the bound is proved for the real-number cosine with a true square
  root, not for IEEE rounding.
- The helpers the view and the canvas use to render buttons, legends and the details panel are
  not part of this model.

## Findings

| source | as written | input that shows it | evidently intended | confidence | as-written member | corrected member |
|---|---|---|---|---|---|---|
| src/app/api/videos/extract/route.ts:55-62 | `predefinedQueries[momentType]` looks the moment type up on a plain object, so inherited members such as `toString` are found and are truthy | `{"momentType": "toString", "indexId": "<an existing index>"}` with no `customQuery` | only the six own keys are moment types; any other value is rejected with 400 "Invalid moment type" | not executed | ExtractRoute.InheritedMomentTypeSearches | ExtractRoute.PlanIntended |
