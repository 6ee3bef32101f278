/** The index-creation endpoint (`POST` in `src/app/api/indexes/route.ts`) as a pure
    function from the caller's identity, the request body and the names of the indexes
    that already exist to the route's outcome. Creating the index itself is a remote call
    and is represented only by the `Create` outcome. */
module IndexRoute {
  import opened Base
  import opened Text
  import opened Json

  /** Why a request is rejected with status 400. */
  datatype Problem =
    | NameRequired
    | ModelsRequired
    | InvalidModelConfig
    | NoModality
    | InvalidModelName(name: Json)
    | InvalidModality(option: Json)

  /** What the handler does with a request. `Failed` is the catch-all 500, reached when
      the handler throws; `Create` goes on to create the index with the name as given. */
  datatype Outcome =
    | Unauthorized
    | BadRequest(problem: Problem)
    | Conflict
    | Failed
    | Create(name: string, models: seq<Json>)

  function Status(o: Outcome): (code: int)
    ensures code == 200 <==> o.Create?
    ensures code == 400 <==> o.BadRequest?
  {
    match o
    case Unauthorized => 401
    case BadRequest(_) => 400
    case Conflict => 409
    case Failed => 500
    case Create(_, _) => 200
  }

  /** The error text of a rejection whose message is fixed. */
  function Message(p: Problem): (m: Option<string>)
    ensures m.Some? <==> !p.InvalidModelName? && !p.InvalidModality?
  {
    match p
    case NameRequired => Some("Index name is required")
    case ModelsRequired => Some("At least one model configuration is required")
    case InvalidModelConfig => Some("Invalid model configuration")
    case NoModality => Some("At least one modality must be selected for each model")
    case InvalidModelName(_) => None
    case InvalidModality(_) => None
  }

  const ModelNames: seq<Json> := [JStr("marengo2.7"), JStr("pegasus1.2")]
  const Modalities: seq<Json> := [JStr("visual"), JStr("audio")]

  /** How checking one model configuration ends when it does not pass. */
  datatype Fault = Reject(problem: Problem) | Crash

  /** The first option that is not a known modality. */
  function FirstBadOption(options: seq<Json>): (r: Option<Json>)
    ensures r.None? <==> forall i :: 0 <= i < |options| ==> options[i] in Modalities
    ensures r.Some? ==> exists i :: 0 <= i < |options| && r.value == options[i] && FirstBadAt(options, i)
    decreases |options|
  {
    if |options| == 0 then None
    else if options[0] !in Modalities then Some(options[0])
    else
      var r := FirstBadOption(options[1..]);
      assert forall i :: 1 <= i < |options| ==> options[1..][i - 1] == options[i];
      r
  }

  /** Option `i` is the first that is not a known modality. */
  predicate FirstBadAt(options: seq<Json>, i: int)
    requires 0 <= i < |options|
  {
    options[i] !in Modalities && forall j :: 0 <= j < i ==> options[j] in Modalities
  }

  /** The checks of one model configuration, in the handler's order: a name and an
      options array, at least one option, a known name, and known options. Reading the
      fields of a `null` configuration throws. */
  function CheckModel(model: Json): Option<Fault> {
    if model.JNull? then Some(Crash)
    else
      var name := Prop(model, "modelName");
      var options := Prop(model, "modelOptions");
      if !JsTruthy(name) || !JsTruthy(options) || !IsArray(options) then Some(Reject(InvalidModelConfig))
      else if |options.value.items| == 0 then Some(Reject(NoModality))
      else if name.value !in ModelNames then Some(Reject(InvalidModelName(name.value)))
      else match FirstBadOption(options.value.items)
        case Some(o) => Some(Reject(InvalidModality(o)))
        case None => None
  }

  /** A well-formed model configuration, stated directly: an object naming a known model
      and listing at least one option, all of them known modalities. */
  predicate ValidModel(model: Json) {
    && model.JObj?
    && "modelName" in model.fields && model.fields["modelName"] in ModelNames
    && "modelOptions" in model.fields && model.fields["modelOptions"].JArr?
    && |model.fields["modelOptions"].items| > 0
    && forall i :: 0 <= i < |model.fields["modelOptions"].items| ==> model.fields["modelOptions"].items[i] in Modalities
  }

  /** A configuration passes the handler's checks exactly when it is well-formed. */
  lemma CheckModelValid(model: Json)
    ensures CheckModel(model).None? <==> ValidModel(model)
  {
  }

  /** Every configuration before the `i`th passes. */
  predicate PassBefore(models: seq<Json>, i: int)
    requires 0 <= i <= |models|
  {
    forall j :: 0 <= j < i ==> CheckModel(models[j]).None?
  }

  /** The configurations all pass exactly when they are all well-formed. */
  lemma AllPass(models: seq<Json>)
    ensures FirstFault(models).None? <==> forall i :: 0 <= i < |models| ==> ValidModel(models[i])
  {
    forall i | 0 <= i < |models| ensures CheckModel(models[i]).None? <==> ValidModel(models[i]) {
      CheckModelValid(models[i]);
    }
  }

  /** The fault of the first configuration that does not pass; the rest are not looked at. */
  function FirstFault(models: seq<Json>): (r: Option<Fault>)
    ensures r.None? <==> forall i :: 0 <= i < |models| ==> CheckModel(models[i]).None?
    ensures r.Some? ==> exists i :: 0 <= i < |models| && CheckModel(models[i]) == r && PassBefore(models, i)
    decreases |models|
  {
    if |models| == 0 then None
    else if CheckModel(models[0]).Some? then CheckModel(models[0])
    else
      var r := FirstFault(models[1..]);
      assert forall i :: 1 <= i < |models| ==> models[1..][i - 1] == models[i];
      r
  }

  /** A body naming the index by a string that is not blank. */
  predicate NamedBody(body: Json) {
    && body.JObj?
    && "indexName" in body.fields && body.fields["indexName"].JStr?
    && Trim(body.fields["indexName"].s) != ""
  }

  /** A request body the handler accepts, stated directly: a non-blank string name and a
      non-empty array of well-formed model configurations. */
  predicate ValidBody(body: Json) {
    && NamedBody(body)
    && "models" in body.fields && body.fields["models"].JArr?
    && |body.fields["models"].items| > 0
    && forall i :: 0 <= i < |body.fields["models"].items| ==> ValidModel(body.fields["models"].items[i])
  }

  /** The handler's checks of the parsed body, in order: the name, the models array, then
      each model. A body it accepts yields the name as given and the models; any other
      yields the response. Reading the fields of `null`, or trimming a name that is not a
      string, throws. */
  function Validate(body: Json): (r: Result<(string, seq<Json>), Outcome>)
    ensures r.Failure? ==> r.error.BadRequest? || r.error.Failed?
  {
    if body.JNull? then Failure(Failed)
    else
      var name := Prop(body, "indexName");
      var models := Prop(body, "models");
      if !JsTruthy(name) then Failure(BadRequest(NameRequired))
      else if !name.value.JStr? then Failure(Failed)
      else if Trim(name.value.s) == "" then Failure(BadRequest(NameRequired))
      else CheckModels(name.value.s, models)
  }

  /** The checks of the models array once the name has passed: present, an array, not
      empty, then each configuration in turn. */
  function CheckModels(name: string, models: Option<Json>): (r: Result<(string, seq<Json>), Outcome>)
    ensures r.Failure? ==> r.error.BadRequest? || r.error.Failed?
  {
    if !JsTruthy(models) || !IsArray(models) || |models.value.items| == 0 then Failure(BadRequest(ModelsRequired))
    else match FirstFault(models.value.items)
      case Some(Reject(p)) => Failure(BadRequest(p))
      case Some(Crash) => Failure(Failed)
      case None => Success((name, models.value.items))
  }

  /** The models checks pass exactly for a non-empty array of well-formed configurations,
      and then hand on the name and the array's items. */
  lemma CheckModelsIff(name: string, models: Option<Json>)
    ensures CheckModels(name, models).Success? <==>
      && models.Some? && models.value.JArr? && |models.value.items| > 0
      && forall i :: 0 <= i < |models.value.items| ==> ValidModel(models.value.items[i])
    ensures CheckModels(name, models).Success? ==> CheckModels(name, models).value == (name, models.value.items)
  {
    if models.Some? && models.value.JArr? && |models.value.items| > 0 {
      AllPass(models.value.items);
    }
  }

  /** The name checks pass exactly for a body that names the index by a non-blank string. */
  lemma NameChecks(body: Json)
    ensures (!body.JNull? && JsTruthy(Prop(body, "indexName")) && Prop(body, "indexName").value.JStr?
             && Trim(Prop(body, "indexName").value.s) != "") <==> NamedBody(body)
  {
  }

  /** A body without a usable name is turned away. */
  lemma UnnamedRejected(body: Json)
    requires !NamedBody(body)
    ensures Validate(body).Failure?
  {
    NameChecks(body);
  }

  /** Once the name passes, the body passes exactly when its models are valid, and then
      the name and models are those of the body. */
  lemma NamedValidated(body: Json)
    requires NamedBody(body)
    ensures Validate(body).Success? <==> ValidBody(body)
    ensures Validate(body).Success? ==>
      Validate(body).value == (body.fields["indexName"].s, body.fields["models"].items)
  {
    NameChecks(body);
    assert Validate(body) == CheckModels(body.fields["indexName"].s, Prop(body, "models"));
    CheckModelsIff(body.fields["indexName"].s, Prop(body, "models"));
  }

  /** The checks pass exactly for the valid bodies, and then yield the name untrimmed and
      the models. */
  lemma ValidateIff(body: Json)
    ensures Validate(body).Success? <==> ValidBody(body)
    ensures Validate(body).Success? ==>
      Validate(body).value == (body.fields["indexName"].s, body.fields["models"].items)
  {
    if NamedBody(body) {
      NamedValidated(body);
    } else {
      UnnamedRejected(body);
    }
  }

  /** The POST handler. `userId` is the caller's identity, `body` the parsed JSON body
      (`None` when the body is not JSON), and `existing` the names of the indexes the
      service lists (`None` when its list has no data). The name clash is looked for only
      once the body is valid. */
  function Post(userId: Option<string>, body: Option<Json>, existing: Option<seq<string>>): (o: Outcome)
    ensures !Truthy(userId) ==> o == Unauthorized
    ensures Truthy(userId) && body.None? ==> o == Failed
    ensures Truthy(userId) && body.Some? && Validate(body.value).Failure? ==> o == Validate(body.value).error
  {
    if !Truthy(userId) then Unauthorized
    else if body.None? then Failed
    else match Validate(body.value)
      case Failure(o) => o
      case Success((name, models)) =>
        if existing.Some? && name in existing.value then Conflict
        else Create(name, models)
  }

  /** The handler goes on to create an index exactly when the caller is signed in, the
      body is valid, and no listed index has the same name; it creates it under the name
      as given, untrimmed. */
  lemma CreateIff(userId: Option<string>, body: Option<Json>, existing: Option<seq<string>>)
    ensures Post(userId, body, existing).Create? <==>
      && Truthy(userId) && body.Some? && ValidBody(body.value)
      && !(existing.Some? && body.value.fields["indexName"].s in existing.value)
    ensures Post(userId, body, existing).Create? ==>
      Post(userId, body, existing) == Create(body.value.fields["indexName"].s, body.value.fields["models"].items)
  {
    if body.Some? {
      ValidateIff(body.value);
    }
  }

  /** A name clash is reported only for a request that passes every other check, and only
      when the service lists an index with exactly that name. */
  lemma ConflictOnlyWhenValid(userId: Option<string>, body: Option<Json>, existing: Option<seq<string>>)
    ensures Post(userId, body, existing) == Conflict <==>
      && Truthy(userId) && body.Some? && ValidBody(body.value)
      && existing.Some? && body.value.fields["indexName"].s in existing.value
  {
    if body.Some? {
      ValidateIff(body.value);
    }
  }

  /** A rejection of a model configuration comes from the first configuration that fails,
      and from its first failing check; every configuration before it is well-formed. */
  lemma FirstFailingModelDecides(body: Json)
    requires Validate(body).Failure? && Validate(body).error.BadRequest?
    requires Validate(body).error.problem !in {NameRequired, ModelsRequired}
    ensures body.JObj? && "models" in body.fields && body.fields["models"].JArr?
    ensures var ms := body.fields["models"].items;
      exists i :: 0 <= i < |ms| && CheckModel(ms[i]) == Some(Reject(Validate(body).error.problem)) && ValidBefore(ms, i)
  {
    var ms := body.fields["models"].items;
    var i :| 0 <= i < |ms| && CheckModel(ms[i]) == FirstFault(ms) && PassBefore(ms, i);
    forall j | 0 <= j < i ensures ValidModel(ms[j]) {
      CheckModelValid(ms[j]);
    }
    assert ValidBefore(ms, i);
  }

  /** Every configuration before the `i`th is well-formed. */
  predicate ValidBefore(models: seq<Json>, i: int)
    requires 0 <= i <= |models|
  {
    forall j :: 0 <= j < i ==> ValidModel(models[j])
  }

  /** A blank or missing name is reported before anything about the models. */
  lemma BlankNameFirst(userId: Option<string>, name: string, fields: map<string, Json>, existing: Option<seq<string>>)
    requires Truthy(userId) && Trim(name) == ""
    ensures Post(userId, Some(JObj(fields["indexName" := JStr(name)])), existing) == BadRequest(NameRequired)
  {
    var body := JObj(fields["indexName" := JStr(name)]);
    assert Prop(body, "indexName") == Some(JStr(name));
    assert Validate(body) == Failure(BadRequest(NameRequired));
  }

  /** The body of a request for an index named `" demo"`. */
  function PaddedBody(models: seq<Json>): Json {
    JObj(map["indexName" := JStr(" demo"), "models" := JArr(models)])
  }

  lemma PaddedBodyValid(models: seq<Json>)
    requires |models| > 0 && forall i :: 0 <= i < |models| ==> ValidModel(models[i])
    ensures ValidBody(PaddedBody(models)) && PaddedBody(models).fields["indexName"].s == " demo"
  {
    var body := PaddedBody(models);
    assert "indexName" != "models";
    assert body.fields["indexName"] == JStr(" demo");
    assert body.fields["models"] == JArr(models);
    assert Trim(" demo") != "" by {
      assert !IsJsWhitespace(" demo"[1]);
      TrimBlank(" demo");
    }
  }

  /** The padded request passes every check, with its name kept untrimmed. */
  lemma PaddedBodyValidates(models: seq<Json>)
    requires |models| > 0 && forall i :: 0 <= i < |models| ==> ValidModel(models[i])
    ensures Validate(PaddedBody(models)) == Success((" demo", models))
  {
    PaddedBodyValid(models);
    ValidateIff(PaddedBody(models));
  }

  /** The duplicate-name check compares names exactly: a name that differs from a listed
      one only by surrounding spaces is not a clash. */
  lemma PaddedNameIsNew(userId: Option<string>, models: seq<Json>)
    requires Truthy(userId) && |models| > 0 && forall i :: 0 <= i < |models| ==> ValidModel(models[i])
    ensures Post(userId, Some(PaddedBody(models)), Some(["demo"])) == Create(" demo", models)
  {
    PaddedBodyValidates(models);
    assert " demo" !in ["demo"] by { assert |" demo"| != |"demo"|; }
  }
}
