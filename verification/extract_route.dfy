/** The moment-extraction endpoint (`POST` in `src/app/api/videos/extract/route.ts`): how
    the request picks a search query, and how the search service's results are filtered by
    video, turned into moments and grouped by video. The index lookup and the search are
    remote calls; their answers are parameters. */
module ExtractRoute {
  import opened Base
  import opened Seqs

  /** The request body's fields; `None` is a field the body leaves out. */
  datatype ExtractRequest = ExtractRequest(
    momentType: Option<string>,
    customQuery: Option<string>,
    videoIds: Option<seq<string>>,
    confidence: Option<real>,
    indexId: Option<string>)

  datatype ExtractError = MissingQuery | MissingIndex | IndexNotFound | InvalidMomentType

  function Status(e: ExtractError): (code: int)
    ensures code == 404 <==> e == IndexNotFound
    ensures code != 404 ==> code == 400
  {
    if e == IndexNotFound then 404 else 400
  }

  /** The error text of each rejection. */
  function Message(e: ExtractError): (m: string)
    ensures |m| > 0
  {
    match e
    case MissingQuery => "Either momentType or customQuery is required"
    case MissingIndex => "Index ID is required"
    case IndexNotFound => "Invalid index ID or index not found"
    case InvalidMomentType => "Invalid moment type"
  }

  /** Each rejection has its own text, so a client can tell them apart. */
  lemma MessagesDistinct(a: ExtractError, b: ExtractError)
    ensures Message(a) == Message(b) <==> a == b
  {
  }

  // ---------------------------------------------------------------------------
  // Preset queries

  /** The six moment types and their search texts. */
  const Presets: map<string, string> := map[
    "emotional" := "emotional moments, tears, crying, reunion, happiness, joy",
    "action" := "action scenes, movement, running, fighting, sports",
    "dialogue" := "people talking, conversation, interview, speech",
    "brand" := "logo, brand mention, product placement, marketing",
    "music" := "music, singing, musical performance, dancing",
    "landscape" := "beautiful scenery, nature, outdoor shots, landscape"]

  /** `predefinedQueries[momentType]` as written: the lookup sees inherited members too,
      and every one of them is truthy, so it passes the `if (!searchQuery)` test. */
  function PresetLookupAsWritten(key: string): (r: Option<Lookup>)
    ensures r.Some? <==> key in Presets || IsInheritedName(key)
  {
    if key in Presets then Some(Text(Presets[key]))
    else if IsInheritedName(key) then Some(InheritedMember(key))
    else None
  }

  /** A moment type naming an inherited member is not one of the six, yet the lookup
      as written finds something truthy for it, so the request is not rejected as an
      invalid moment type. */
  lemma InheritedKeyPassesCheck()
    ensures "toString" !in Presets
    ensures PresetLookupAsWritten("toString") == Some(InheritedMember("toString"))
    ensures PresetQuery("toString").None?
  {
  }

  /** The lookup the `if (!searchQuery)` test evidently means: the preset object's own six
      keys only. */
  function PresetQuery(key: string): (r: Option<string>)
    ensures r.Some? <==> key in Presets
    ensures r.Some? ==> r.value == Presets[key] && |r.value| > 0
    ensures r.Some? ==> PresetLookupAsWritten(key) == Some(Text(r.value))
  {
    if key in Presets then Some(Presets[key]) else None
  }

  // ---------------------------------------------------------------------------
  // Query resolution

  /** The search the handler asks for. The query is the custom query's text, a preset's
      text, or whatever inherited member the preset lookup found. */
  datatype SearchPlan = SearchPlan(
    indexId: string,
    query: Lookup,
    searchOptions: seq<string>,
    pageLimit: nat,
    threshold: real)

  const DefaultConfidence: real := 0.7
  const PageLimit: nat := 50

  /** The checks before the search, in the handler's order: some query, an index id, an
      index that exists, then a custom query or whatever the preset lookup found for the
      moment type (`preset`). */
  function PlanFrom(req: ExtractRequest, indexFound: bool, preset: Option<Lookup>): (r: Result<SearchPlan, ExtractError>)
    ensures r == Failure(MissingQuery) <==> !Truthy(req.momentType) && !Truthy(req.customQuery)
    ensures r == Failure(MissingIndex) <==>
      (Truthy(req.momentType) || Truthy(req.customQuery)) && !Truthy(req.indexId)
    ensures r == Failure(IndexNotFound) <==>
      (Truthy(req.momentType) || Truthy(req.customQuery)) && Truthy(req.indexId) && !indexFound
    ensures r == Failure(InvalidMomentType) <==>
      Truthy(req.momentType) && !Truthy(req.customQuery) && Truthy(req.indexId) && indexFound && preset.None?
    ensures r.Success? ==>
      && Truthy(req.indexId) && indexFound
      && r.value.indexId == req.indexId.value
      && r.value.query == (if Truthy(req.customQuery) then Text(req.customQuery.value) else preset.value)
      && r.value.searchOptions == ["visual", "audio"]
      && r.value.pageLimit == PageLimit
      && r.value.threshold == (if req.confidence.Some? then req.confidence.value else DefaultConfidence)
  {
    if !Truthy(req.momentType) && !Truthy(req.customQuery) then Failure(MissingQuery)
    else if !Truthy(req.indexId) then Failure(MissingIndex)
    else if !indexFound then Failure(IndexNotFound)
    else
      var query := if Truthy(req.customQuery) then Some(Text(req.customQuery.value)) else preset;
      if query.None? then Failure(InvalidMomentType)
      else
        var threshold := if req.confidence.Some? then req.confidence.value else DefaultConfidence;
        Success(SearchPlan(req.indexId.value, query.value, ["visual", "audio"], PageLimit, threshold))
  }

  /** The moment type, or the empty string for a missing one (never looked up: a request
      without a moment type either has a custom query or was rejected before). */
  function MomentKey(req: ExtractRequest): string {
    if req.momentType.Some? then req.momentType.value else ""
  }

  /** The handler as written: the moment type is looked up on the preset object, so an
      inherited member name passes the `if (!searchQuery)` test. */
  function Plan(req: ExtractRequest, indexFound: bool): (r: Result<SearchPlan, ExtractError>)
    ensures r == PlanFrom(req, indexFound, PresetLookupAsWritten(MomentKey(req)))
  {
    PlanFrom(req, indexFound, PresetLookupAsWritten(MomentKey(req)))
  }

  /** The handler as evidently intended: only the six own keys are moment types. */
  function PlanIntended(req: ExtractRequest, indexFound: bool): (r: Result<SearchPlan, ExtractError>)
    ensures r.Success? ==> r.value.query.Text?
  {
    var preset := PresetQuery(MomentKey(req));
    PlanFrom(req, indexFound, if preset.Some? then Some(Text(preset.value)) else None)
  }

  /** As written: a custom query wins over the moment type; without one, the request is
      planned exactly when the moment type is one of the six or an inherited member name,
      and the query is what the lookup found. */
  lemma QueryPrecedenceAsWritten(req: ExtractRequest, indexFound: bool)
    requires Truthy(req.indexId) && indexFound
    requires Truthy(req.momentType) || Truthy(req.customQuery)
    ensures Truthy(req.customQuery) ==>
      Plan(req, indexFound).Success? && Plan(req, indexFound).value.query == Text(req.customQuery.value)
    ensures !Truthy(req.customQuery) ==>
      && (Plan(req, indexFound).Success? <==> req.momentType.value in Presets || IsInheritedName(req.momentType.value))
      && (Plan(req, indexFound).Failure? ==> Plan(req, indexFound).error == InvalidMomentType)
      && (req.momentType.value in Presets ==> Plan(req, indexFound).value.query == Text(Presets[req.momentType.value]))
      && (IsInheritedName(req.momentType.value) ==>
            Plan(req, indexFound).value.query == InheritedMember(req.momentType.value))
  {
    assert IsInheritedName(MomentKey(req)) ==> MomentKey(req) !in Presets;
  }

  /** As intended: a custom query wins over the moment type; without one, the moment
      type must be one of the six, and its preset text is the query. */
  lemma QueryPrecedence(req: ExtractRequest, indexFound: bool)
    requires Truthy(req.indexId) && indexFound
    requires Truthy(req.momentType) || Truthy(req.customQuery)
    ensures Truthy(req.customQuery) ==>
      PlanIntended(req, indexFound).Success? && PlanIntended(req, indexFound).value.query == Text(req.customQuery.value)
    ensures !Truthy(req.customQuery) ==>
      && (PlanIntended(req, indexFound).Success? <==> req.momentType.value in Presets)
      && (PlanIntended(req, indexFound).Failure? ==> PlanIntended(req, indexFound).error == InvalidMomentType)
      && (PlanIntended(req, indexFound).Success? ==>
            PlanIntended(req, indexFound).value.query == Text(Presets[req.momentType.value]))
  {
  }

  /** The two plans differ only on a request that has no custom query and whose moment
      type is an inherited member name. */
  lemma PlansAgree(req: ExtractRequest, indexFound: bool)
    ensures Plan(req, indexFound) != PlanIntended(req, indexFound) <==>
      && Truthy(req.indexId) && indexFound && !Truthy(req.customQuery)
      && Truthy(req.momentType) && IsInheritedName(req.momentType.value)
  {
    assert req.momentType.Some? && IsInheritedName(req.momentType.value) ==> req.momentType.value !in Presets;
  }

  /** A concrete request the two plans answer differently: moment type `toString` with no
      custom query searches as written and is a 400 as intended. */
  lemma InheritedMomentTypeSearches()
    ensures var req := ExtractRequest(Some("toString"), None, None, None, Some("idx"));
      && Plan(req, true) == Success(SearchPlan("idx", InheritedMember("toString"), ["visual", "audio"], PageLimit, DefaultConfidence))
      && PlanIntended(req, true) == Failure(InvalidMomentType)
      && Status(PlanIntended(req, true).error) == 400
  {
    assert "toString" !in Presets;
  }

  // ---------------------------------------------------------------------------
  // Results

  datatype HitMetadata = HitMetadata(videoId: Option<string>, filename: Option<string>)

  /** One search result as the service returns it. */
  datatype SearchHit = SearchHit(
    id: string,
    metadata: Option<HitMetadata>,
    start: real,
    end: real,
    score: real,
    thumbnailUrl: Option<string>)

  /** `result.metadata?.video_id`. */
  function VideoIdOf(h: SearchHit): Option<string> {
    if h.metadata.Some? then h.metadata.value.videoId else None
  }

  /** `videoIds.includes(result.metadata?.video_id)`: a result without a video id never
      matches. */
  predicate Wanted(videoIds: seq<string>, h: SearchHit) {
    VideoIdOf(h).Some? && VideoIdOf(h).value in videoIds
  }

  /** The results whose video is wanted, in their original order. */
  function Kept(hits: seq<SearchHit>, videoIds: seq<string>): (r: seq<SearchHit>)
    ensures |r| <= |hits|
    ensures forall h :: h in r <==> h in hits && Wanted(videoIds, h)
    decreases |hits|
  {
    if |hits| == 0 then []
    else (if Wanted(videoIds, hits[0]) then [hits[0]] else []) + Kept(hits[1..], videoIds)
  }

  /** Filtering is done piece by piece, so it keeps the results' order. */
  lemma {:induction false} KeptAppend(a: seq<SearchHit>, b: seq<SearchHit>, videoIds: seq<string>)
    ensures Kept(a + b, videoIds) == Kept(a, videoIds) + Kept(b, videoIds)
    decreases |a|
  {
    if |a| == 0 {
      assert a + b == b;
    } else {
      assert (a + b)[0] == a[0];
      assert (a + b)[1..] == a[1..] + b;
      KeptAppend(a[1..], b, videoIds);
    }
  }

  /** When every result is wanted, filtering changes nothing. */
  lemma {:induction false} KeptAll(hits: seq<SearchHit>, videoIds: seq<string>)
    requires forall i :: 0 <= i < |hits| ==> Wanted(videoIds, hits[i])
    ensures Kept(hits, videoIds) == hits
    decreases |hits|
  {
    if |hits| > 0 {
      KeptAll(hits[1..], videoIds);
      assert [hits[0]] + hits[1..] == hits;
    }
  }

  /** The video filter applies only when some video ids are given. */
  function FilterHits(hits: seq<SearchHit>, videoIds: seq<string>): (r: seq<SearchHit>)
    ensures |videoIds| == 0 ==> r == hits
    ensures |videoIds| > 0 ==> forall h :: h in r <==> h in hits && Wanted(videoIds, h)
  {
    if |videoIds| > 0 then Kept(hits, videoIds) else hits
  }

  /** One extracted moment. */
  datatype Moment = Moment(
    id: string,
    videoId: Option<string>,
    filename: Option<string>,
    start: real,
    end: real,
    duration: real,
    score: real,
    thumbnailUrl: Option<string>)

  /** A result as a moment: its fields copied and its duration added. */
  function ToMoment(h: SearchHit): (m: Moment)
    ensures m.id == h.id && m.videoId == VideoIdOf(h) && m.score == h.score
    ensures m.filename == (if h.metadata.Some? then h.metadata.value.filename else None)
    ensures m.start == h.start && m.end == h.end && m.thumbnailUrl == h.thumbnailUrl
    ensures m.start + m.duration == m.end
  {
    Moment(h.id, VideoIdOf(h), if h.metadata.Some? then h.metadata.value.filename else None,
           h.start, h.end, h.end - h.start, h.score, h.thumbnailUrl)
  }

  /** The key a moment is grouped under: its video id, or the text `undefined` that an
      object key made from a missing id becomes. */
  function GroupKey(m: Moment): string {
    if m.videoId.Some? then m.videoId.value else "undefined"
  }

  /** A moment without a video id shares its group with moments of a video whose id is
      literally `undefined`. */
  lemma MissingVideoIdKey(a: Moment, b: Moment)
    requires a.videoId.None? && b.videoId == Some("undefined")
    ensures GroupKey(a) == GroupKey(b)
  {
  }

  /** The successful response. */
  datatype Extracted = Extracted(
    momentType: string,
    query: Lookup,
    totalMoments: nat,
    videosProcessed: nat,
    moments: seq<Moment>,
    groups: seq<Bucket<string, Moment>>)

  /** The response for a planned search, given the results' data (`None` when the answer
      carries none). */
  function Respond(req: ExtractRequest, plan: SearchPlan, data: Option<seq<SearchHit>>): (r: Extracted)
    ensures r.totalMoments == |r.moments|
    ensures r.videosProcessed == |r.groups|
    ensures r.query == plan.query
    ensures r.momentType == if Truthy(req.momentType) then req.momentType.value else "custom"
  {
    var hits := if data.Some? then data.value else [];
    var videoIds := if req.videoIds.Some? then req.videoIds.value else [];
    var moments := MapSeq(FilterHits(hits, videoIds), ToMoment);
    var groups := GroupBy(moments, GroupKey);
    Extracted(if Truthy(req.momentType) then req.momentType.value else "custom",
              plan.query, |moments|, |groups|, moments, groups)
  }

  /** The response for a plan: its rejection, or the response to the planned search. */
  function Answer(req: ExtractRequest, plan: Result<SearchPlan, ExtractError>, data: Option<seq<SearchHit>>): (r: Result<Extracted, ExtractError>)
    ensures r.Failure? <==> plan.Failure?
    ensures r.Failure? ==> r.error == plan.error
    ensures r.Success? ==> r.value == Respond(req, plan.value, data)
  {
    match plan
    case Failure(e) => Failure(e)
    case Success(p) => Success(Respond(req, p, data))
  }

  /** The whole handler as written, apart from the remote calls' failures and the grouping
      throw on an inherited video id: rejections come from the checks before the search,
      and a search is answered with its query, totals, moments and groups. */
  function Extract(req: ExtractRequest, indexFound: bool, data: Option<seq<SearchHit>>): (r: Result<Extracted, ExtractError>)
    ensures r.Failure? <==>
      || (!Truthy(req.momentType) && !Truthy(req.customQuery))
      || !Truthy(req.indexId) || !indexFound
      || (!Truthy(req.customQuery) && MomentKey(req) !in Presets && !IsInheritedName(MomentKey(req)))
    ensures r.Failure? ==> r.error == Plan(req, indexFound).error
    ensures r.Success? ==>
      r.value.query == (if Truthy(req.customQuery) then Text(req.customQuery.value) else PresetLookupAsWritten(MomentKey(req)).value)
  {
    Answer(req, Plan(req, indexFound), data)
  }

  /** The handler as evidently intended, on the own-key preset lookup. */
  function ExtractIntended(req: ExtractRequest, indexFound: bool, data: Option<seq<SearchHit>>): (r: Result<Extracted, ExtractError>)
    ensures r.Success? ==> r.value.query.Text?
  {
    Answer(req, PlanIntended(req, indexFound), data)
  }

  /** The handler as written answers like the intended one on every request except one
      whose moment type, with no custom query, is an inherited member name. */
  lemma ExtractAgrees(req: ExtractRequest, indexFound: bool, data: Option<seq<SearchHit>>)
    requires !(Truthy(req.momentType) && IsInheritedName(req.momentType.value) && !Truthy(req.customQuery))
    ensures Extract(req, indexFound, data) == ExtractIntended(req, indexFound, data)
  {
    PlansAgree(req, indexFound);
  }

  /** The moments are the kept results, one each, in order. */
  lemma MomentsFollowHits(req: ExtractRequest, plan: SearchPlan, hits: seq<SearchHit>)
    ensures var r := Respond(req, plan, Some(hits));
      var videoIds := if req.videoIds.Some? then req.videoIds.value else [];
      var kept := FilterHits(hits, videoIds);
      && |r.moments| == |kept|
      && (forall i :: 0 <= i < |kept| ==> r.moments[i] == ToMoment(kept[i]))
      && (|videoIds| == 0 ==> |r.moments| == |hits|)
  {
  }

  /** The groups partition the moments: every moment is in exactly one group, the group
      of its key; a group holds its key's moments in their order; no group is empty and no
      key repeats, so `videosProcessed` is the number of distinct keys. */
  lemma GroupsPartition(req: ExtractRequest, plan: SearchPlan, data: Option<seq<SearchHit>>)
    ensures var r := Respond(req, plan, data);
      && multiset(Flatten(r.groups)) == multiset(r.moments)
      && (forall i :: 0 <= i < |r.groups| ==> r.groups[i].items == Select(r.moments, GroupKey, r.groups[i].key))
      && NoEmptyGroup(r.groups)
      && Distinct(Keys(r.groups))
      && r.videosProcessed == KeyCount(r.moments, GroupKey)
  {
    var r := Respond(req, plan, data);
    GroupByPermutes(r.moments, GroupKey);
    GroupByItems(r.moments, GroupKey);
    GroupsNonEmpty(r.moments, GroupKey);
    GroupByKeysDistinct(r.moments, GroupKey);
    GroupByCount(r.moments, GroupKey);
  }
}
