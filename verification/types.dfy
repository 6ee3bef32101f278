/** The records the engine consumes (a row of `vector_memories`) and the
    geometry it produces (graph nodes and edges). */
module GraphTypes {
  import opened Base
  import Seqs

  /** The fields of a memory's `metadata` JSON that the engine reads. */
  datatype Metadata = Metadata(
    category: Option<string>,
    timestamp: Option<string>,
    emotion: Option<string>,
    importance: Option<real>)

  /** A stored embedding as it reaches the engine: missing, a number array, or its text form. */
  datatype Embedding = NoEmbedding | Components(values: seq<Num>) | Encoded(text: string)

  /** A row of `vector_memories`; the row's creation and update times are not modelled. */
  datatype VectorMemory = VectorMemory(
    id: string,
    videoId: string,
    indexId: string,
    sentence: string,
    embedding: Embedding,
    metadata: Option<Metadata>,
    confidence: Option<real>)

  datatype NodeType = VideoNode | SentenceNode | CategoryNode

  datatype NodeData =
    | VideoNodeData(id: string, videoId: string, indexId: string, title: string, totalSentences: nat)
    | CategoryNodeData(id: string, category: string, count: nat, videoId: string, indexId: string)
    | MemoryNodeData(memory: VectorMemory)

  datatype GraphNode = GraphNode(
    id: string,
    nodeType: NodeType,
    x: real,
    y: real,
    data: NodeData,
    size: real,
    color: Lookup,
    isHovered: bool,
    isDragging: bool)

  datatype VisualProps = VisualProps(opacity: real, thickness: real, glow: real, pulseDuration: real)

  /** The numeric components of an edge's `hsl(...)` colour. */
  datatype Hsl = Hsl(hue: int, saturation: real, lightness: real)

  datatype EdgeType = VideoSentence | SentenceSentence | CategorySentence | VideoCategory

  datatype EdgeMetadata = EdgeMetadata(
    category: Option<string>,
    importance: Option<real>,
    timestamp: Option<string>)

  datatype GraphEdge = GraphEdge(
    id: string,
    source: string,
    target: string,
    similarity: real,
    visualProps: VisualProps,
    color: Hsl,
    edgeType: EdgeType,
    metadata: EdgeMetadata)

  datatype Graph = Graph(nodes: seq<GraphNode>, edges: seq<GraphEdge>)

  function NodeIds(ns: seq<GraphNode>): (ids: seq<string>)
    ensures |ids| == |ns|
    ensures forall i :: 0 <= i < |ns| ==> ids[i] == ns[i].id
  {
    if |ns| == 0 then [] else NodeIds(ns[..|ns| - 1]) + [ns[|ns| - 1].id]
  }

  /** Both ends of `e` are nodes of `ns`. */
  predicate HasEndpoints(ns: seq<GraphNode>, e: GraphEdge) {
    e.source in NodeIds(ns) && e.target in NodeIds(ns)
  }

  function MemoryId(m: VectorMemory): string {
    m.id
  }

  /** The memories' ids, in order. */
  function MemoryIds(ms: seq<VectorMemory>): (ids: seq<string>)
    ensures |ids| == |ms|
    ensures forall i :: 0 <= i < |ms| ==> ids[i] == ms[i].id
  {
    Seqs.MapSeq(ms, MemoryId)
  }
}
