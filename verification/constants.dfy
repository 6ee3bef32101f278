/** Layout constants, palette and the visual encodings of the graph
    (`src/components/graph/constants.ts`). */
module Constants {
  import opened Base
  import opened GraphTypes

  // LAYOUT_CONSTANTS
  const CenterX: real := 0.0
  const CenterY: real := 0.0
  const VideoNodeSize: real := 80.0
  const VideoSpacing: real := 300.0
  const SentenceClusterRadius: real := 200.0
  const SentenceSpacing: real := 80.0
  const MinSentenceDistance: real := 60.0
  const CategoryClusterRadius: real := 350.0
  const CategoryNodeSize: real := 60.0
  const MinEdgeOpacity: real := 0.1
  const MaxEdgeOpacity: real := 0.8
  const MinEdgeThickness: real := 1.0
  const MaxEdgeThickness: real := 4.0
  const MinSimilarityThreshold: real := 0.6
  const StrongSimilarityThreshold: real := 0.8
  const AnimationDuration: real := 300.0
  const PanSensitivity: real := 1.0
  const ZoomSensitivity: real := 0.1
  const MinZoom: real := 0.1
  const MaxZoom: real := 5.0

  // NODE_SIZES
  const VideoSize: real := 80.0
  const SentenceSmall: real := 32.0
  const SentenceMedium: real := 48.0
  const SentenceLarge: real := 64.0
  const CategorySize: real := 60.0

  // colors
  const VideoPrimary: string := "#8B5CF6"
  const CategoryPrimary: string := "#4F46E5"
  const DescriptionColor: string := "#6B7280"

  /** The sentence palette `colors.sentence`, looked up by category name. */
  function SentencePalette(category: string): Option<string>
  {
    if category == "topic" then Some("#EF4444")
    else if category == "entity" then Some("#3B82F6")
    else if category == "action" then Some("#10B981")
    else if category == "dialogue" then Some("#F59E0B")
    else if category == "description" then Some(DescriptionColor)
    else if category == "emotion" then Some("#EC4899")
    else if category == "brand" then Some("#DC2626")
    else if category == "setting" then Some("#059669")
    else None
  }

  /** The eight category names that have their own colour. */
  predicate IsPaletteCategory(category: string) {
    category in {"topic", "entity", "action", "dialogue", "description", "emotion", "brand", "setting"}
  }

  /** `getNodeColor`: videos and categories have fixed colours. A sentence whose category
      passes `category in colors.sentence` takes what indexing the palette with it gives:
      its colour for one of the eight own keys, the inherited member for a name every
      object inherits. Any other sentence, and any unknown node type, is drawn in the
      description grey. */
  function NodeColor(nodeType: string, category: Option<string>): (c: Lookup)
    ensures nodeType == "video" ==> c == Text(VideoPrimary)
    ensures nodeType == "category" ==> c == Text(CategoryPrimary)
    ensures nodeType == "sentence" && category.Some? && IsPaletteCategory(category.value) ==>
      c.Text? && Some(c.text) == SentencePalette(category.value)
    ensures nodeType == "sentence" && category.Some? && IsInheritedName(category.value) ==>
      c == InheritedMember(category.value)
    ensures (nodeType == "sentence" &&
             !(category.Some? && (IsPaletteCategory(category.value) || IsInheritedName(category.value)))) ==>
      c == Text(DescriptionColor)
    ensures nodeType !in {"video", "category", "sentence"} ==> c == Text(DescriptionColor)
  {
    if nodeType == "video" then Text(VideoPrimary)
    else if nodeType == "category" then Text(CategoryPrimary)
    else if nodeType == "sentence" && Truthy(category) && SentencePalette(category.value).Some? then
      Text(SentencePalette(category.value).value)
    else if nodeType == "sentence" && Truthy(category) && IsInheritedName(category.value) then
      InheritedMember(category.value)
    else Text(DescriptionColor)
  }

  /** A node's colour is a colour string unless it is a sentence whose category is an
      inherited member name; the eight palette names are not among those. */
  lemma NodeColorInherited(nodeType: string, category: Option<string>)
    ensures NodeColor(nodeType, category).InheritedMember? <==>
      nodeType == "sentence" && category.Some? && IsInheritedName(category.value)
  {
    if category.Some? && IsInheritedName(category.value) {
      assert SentencePalette(category.value).None?;
    }
  }

  /** The palette and its membership test name the same eight categories. */
  lemma PaletteDomain(category: string)
    ensures SentencePalette(category).Some? <==> IsPaletteCategory(category)
  {
  }

  /** `getSentenceSize`: a base of 32, plus up to 16 for length (saturating at 100
      characters), plus 16 times the importance, clamped to the small..large range. */
  function SentenceSize(sentence: string, importance: real): (size: real)
    ensures SentenceSmall <= size <= SentenceLarge
  {
    var lengthFactor := Min(|sentence| as real / 100.0, 1.0);
    Clamp(SentenceSmall + lengthFactor * 16.0 + importance * 16.0, SentenceSmall, SentenceLarge)
  }

  /** Longer sentences and more important ones are never drawn smaller. */
  lemma SentenceSizeMonotone(s1: string, i1: real, s2: string, i2: real)
    requires |s1| <= |s2| && i1 <= i2
    ensures SentenceSize(s1, i1) <= SentenceSize(s2, i2)
  {
  }

  /** Only the first hundred characters matter to the size. */
  lemma SentenceSizeLengthSaturates(s1: string, s2: string, importance: real)
    requires |s1| >= 100 && |s2| >= 100
    ensures SentenceSize(s1, importance) == SentenceSize(s2, importance)
  {
  }

  /** An empty sentence of importance 0 is smallest; a long one of importance 1 is largest. */
  lemma SentenceSizeExtremes(long: string)
    requires |long| >= 100
    ensures SentenceSize("", 0.0) == SentenceSmall
    ensures SentenceSize(long, 1.0) == SentenceLarge
  {
  }

  /** `getConnectionVisualProps`: the similarity, clamped to [0, 1], interpolates opacity
      between the minimum and maximum edge opacity, thickness between the minimum and
      maximum edge thickness, glow up to 0.6, and pulse duration from 5000 down to 2000. */
  function ConnectionVisualProps(similarity: real): (v: VisualProps)
    ensures MinEdgeOpacity <= v.opacity <= MaxEdgeOpacity
    ensures MinEdgeThickness <= v.thickness <= MaxEdgeThickness
    ensures 0.0 <= v.glow <= 0.6
    ensures 2000.0 <= v.pulseDuration <= 5000.0
  {
    var s := Clamp(similarity, 0.0, 1.0);
    VisualProps(
      MinEdgeOpacity + s * (MaxEdgeOpacity - MinEdgeOpacity),
      MinEdgeThickness + s * (MaxEdgeThickness - MinEdgeThickness),
      s * 0.6,
      2000.0 + (1.0 - s) * 3000.0)
  }

  /** A stronger similarity is drawn at least as opaque, thick and glowing, and pulses
      at least as fast. */
  lemma ConnectionVisualPropsMonotone(a: real, b: real)
    requires a <= b
    ensures var va, vb := ConnectionVisualProps(a), ConnectionVisualProps(b);
      && va.opacity <= vb.opacity && va.thickness <= vb.thickness
      && va.glow <= vb.glow && vb.pulseDuration <= va.pulseDuration
  {
  }

  /** Similarities outside [0, 1] are drawn like the nearest end of the range. */
  lemma ConnectionVisualPropsClamps(s: real)
    ensures s <= 0.0 ==> ConnectionVisualProps(s) == ConnectionVisualProps(0.0)
    ensures s >= 1.0 ==> ConnectionVisualProps(s) == ConnectionVisualProps(1.0)
  {
  }

  /** The colour keys `getEdgeColor` tells apart; every other key gets the default hue. */
  datatype ColorKey =
    | VideoSentenceKey
    | SentenceSentenceKey
    | CategorySentenceKey
    | VideoCategoryKey
    | SearchKey
    | OtherKey

  /** How the source spells each known key. */
  function Spelling(k: ColorKey): string
    requires !k.OtherKey?
  {
    match k
    case VideoSentenceKey => "video-sentence"
    case SentenceSentenceKey => "sentence-sentence"
    case CategorySentenceKey => "category-sentence"
    case VideoCategoryKey => "video-category"
    case SearchKey => "search"
  }

  /** Reads the key string `getEdgeColor` is called with. */
  function KeyOf(key: string): (k: ColorKey)
    ensures !k.OtherKey? ==> Spelling(k) == key
    ensures k.OtherKey? ==> forall known: ColorKey :: !known.OtherKey? ==> Spelling(known) != key
  {
    if key == "video-sentence" then VideoSentenceKey
    else if key == "sentence-sentence" then SentenceSentenceKey
    else if key == "category-sentence" then CategorySentenceKey
    else if key == "video-category" then VideoCategoryKey
    else if key == "search" then SearchKey
    else OtherKey
  }

  /** Every known key is read back from its spelling, and only its spelling names it. */
  lemma KeySpellings(k: ColorKey, key: string)
    requires !k.OtherKey?
    ensures KeyOf(Spelling(k)) == k
    ensures KeyOf(key) == k <==> key == Spelling(k)
  {
  }

  /** The hue of each key; unknown keys fall back to 220. */
  function Hue(k: ColorKey): int
  {
    match k
    case VideoSentenceKey => 220
    case SentenceSentenceKey => 280
    case CategorySentenceKey => 200
    case VideoCategoryKey => 260
    case SearchKey => 45
    case OtherKey => 220
  }

  /** The colour key of each edge type. */
  function EdgeTypeKey(t: EdgeType): ColorKey
  {
    match t
    case VideoSentence => VideoSentenceKey
    case SentenceSentence => SentenceSentenceKey
    case CategorySentence => CategorySentenceKey
    case VideoCategory => VideoCategoryKey
  }

  /** `getEdgeColor`: a hue chosen by the key, saturation from 60% and lightness from
      40% rising with the similarity (the similarity is not clamped here). */
  function EdgeColor(key: ColorKey, similarity: real): (c: Hsl)
    ensures c.hue == 220 || c.hue == 280 || c.hue == 200 || c.hue == 260 || c.hue == 45
    ensures 0.0 <= similarity <= 1.0 ==> 60.0 <= c.saturation <= 100.0 && 40.0 <= c.lightness <= 70.0
  {
    Hsl(Hue(key), 60.0 + similarity * 40.0, 40.0 + similarity * 30.0)
  }

  /** The four edge types get four distinct hues, none of them the search hue; the
      video-sentence hue is also the fallback every unknown key gets. */
  lemma EdgeHuesDistinct(t1: EdgeType, t2: EdgeType, unknown: string)
    requires KeyOf(unknown).OtherKey?
    ensures Hue(EdgeTypeKey(t1)) == Hue(EdgeTypeKey(t2)) <==> t1 == t2
    ensures Hue(EdgeTypeKey(t1)) != Hue(SearchKey)
    ensures Hue(EdgeTypeKey(VideoSentence)) == Hue(KeyOf(unknown))
  {
  }

  /** Brighter, more saturated edges mean stronger similarity. */
  lemma EdgeColorMonotone(key: ColorKey, a: real, b: real)
    requires a <= b
    ensures EdgeColor(key, a).saturation <= EdgeColor(key, b).saturation
    ensures EdgeColor(key, a).lightness <= EdgeColor(key, b).lightness
    ensures EdgeColor(key, a).hue == EdgeColor(key, b).hue
  {
  }

  /** The layout constants agree with each other: the node sizes match, the sentence
      sizes are ordered, the edge ranges are non-empty, the strong threshold lies above
      the minimum one, and the zoom range contains 1. */
  lemma ConstantsConsistent()
    ensures VideoNodeSize == VideoSize && CategoryNodeSize == CategorySize
    ensures SentenceSmall < SentenceMedium < SentenceLarge
    ensures SentenceSmall + 16.0 == SentenceMedium && SentenceMedium + 16.0 == SentenceLarge
    ensures MinEdgeOpacity < MaxEdgeOpacity && MinEdgeThickness < MaxEdgeThickness
    ensures 0.0 < MinSimilarityThreshold < StrongSimilarityThreshold <= 1.0
    ensures 0.0 < MinZoom < 1.0 < MaxZoom
    ensures MinSentenceDistance < SentenceClusterRadius < CategoryClusterRadius
  {
  }
}
