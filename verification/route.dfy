/**
 * `src/app/api/analyze/route.ts`: the POST handler. It checks the one input
 * field, calls the analyser and maps its outcome to a status and a body.
 * The analyser is a parameter, so the handler's use of it is explicit.
 */
module AnalyzeRoute {
  import opened Wrappers
  import opened Json
  import opened JsString
  import opened Types
  import Ai

  /** The request body: `request.json()` either throws or yields a value. */
  datatype Body = Unreadable | Parsed(value: Json)

  datatype HttpReply = HttpReply(status: int, body: ApiResponse<Ai.Analysis>)

  /** How far the handler gets with the body before calling the analyser. */
  datatype Admission =
    | Threw                     // reading or destructuring the body threw
    | Rejected                  // `image` missing, empty or not a string
    | Accepted(image: string)

  /**
   * `const { image } = body` followed by the `!image || typeof image !== "string"` test.
   * Destructuring `null` throws; any other value without the property gives `undefined`.
   */
  function Admit(body: Body): (a: Admission)
    ensures a.Threw? <==> body == Unreadable || body == Parsed(JNull)
    ensures a.Accepted? <==>
      body.Parsed? && Property(body.value, "image").Some?
      && Property(body.value, "image").value.JString? && Property(body.value, "image").value.s != ""
    ensures a.Accepted? ==> a.image != "" && body.value.fields["image"] == JString(a.image)
  {
    match body
    case Unreadable => Threw
    case Parsed(JNull) => Threw
    case Parsed(v) =>
      match Property(v, "image")
      case Some(JString(s)) => if s != "" then Accepted(s) else Rejected
      case _ => Rejected
  }

  function Failed(status: int, code: string): HttpReply {
    HttpReply(status, ApiResponse(false, None, Some(code)))
  }

  /** `POST`: 400 for a bad `image`, 200 with data, 200 for NO_TEXT_FOUND, 500 for anything else. */
  function Handle(body: Body, analyze: string -> Result<Ai.Analysis, Ai.Failure>): (r: HttpReply)
    ensures r.body.success <==> r.body.data.Some?
    ensures r.body.success <==> r.body.error.None?
    ensures r.status == 200 || r.status == 400 || r.status == 500
    ensures r.status == 400 <==> Admit(body).Rejected?
    ensures !Admit(body).Accepted? ==> r.body.error == Some(ApiErrorCode)
    ensures Admit(body).Threw? ==> r == Failed(500, ApiErrorCode)
    ensures Admit(body).Rejected? ==> r == Failed(400, ApiErrorCode)
    ensures Admit(body).Accepted? ==>
      var outcome := analyze(Admit(body).image);
      && (r.body.success <==> outcome.Success?)
      && (outcome.Success? ==> r == HttpReply(200, ApiResponse(true, Some(outcome.value), None)))
      && (outcome == Failure(Ai.NoTextFound) ==> r == Failed(200, NoTextFoundCode))
      && (outcome.Failure? && outcome.error != Ai.NoTextFound ==> r == Failed(500, ApiErrorCode))
  {
    match Admit(body)
    case Threw => Failed(500, ApiErrorCode)
    case Rejected => Failed(400, ApiErrorCode)
    case Accepted(image) =>
      match analyze(image)
      case Success(data) => HttpReply(200, ApiResponse(true, Some(data), None))
      case Failure(e) => if e == Ai.NoTextFound then Failed(200, NoTextFoundCode) else Failed(500, ApiErrorCode)
  }

  /** The analyser is never consulted for a body the handler does not accept. */
  lemma AnalyzerUnusedOnBadInput(body: Body, f: string -> Result<Ai.Analysis, Ai.Failure>,
                                 g: string -> Result<Ai.Analysis, Ai.Failure>)
    requires !Admit(body).Accepted?
    ensures Handle(body, f) == Handle(body, g)
  {
  }

  /** Provider quota and authorisation failures, and a missing key, all surface as a plain 500. */
  lemma ClassifiedFailuresCollapse(image: string, analyze: string -> Result<Ai.Analysis, Ai.Failure>)
    requires image != ""
    requires analyze(image) in {Failure(Ai.RateLimited), Failure(Ai.ServiceUnavailable), Failure(Ai.MissingApiKey)}
    ensures Handle(Parsed(JObject(map["image" := JString(image)])), analyze) == Failed(500, ApiErrorCode)
  {
  }

  /** A successful analysis of a well-formed body is returned with status 200. */
  lemma SuccessIs200(image: string, analyze: string -> Result<Ai.Analysis, Ai.Failure>, a: Ai.Analysis)
    requires image != "" && analyze(image) == Success(a)
    ensures Handle(Parsed(JObject(map["image" := JString(image)])), analyze)
            == HttpReply(200, ApiResponse(true, Some(a), None))
  {
  }

  /**
   * End to end: a key is set, the first reply is the serialised analysis in a
   * tagged fence, and the analysis has content within the sentence bound; the
   * client receives exactly that analysis with status 200.
   */
  lemma FencedReplyEndToEnd(apiKey: Option<string>, image: string,
                            provider: (string, nat) -> Ai.ProviderReply,
                            encode: Json -> string, decode: string -> Option<Json>, a: Ai.Analysis)
    requires image != "" && !Ai.KeyMissing(apiKey)
    requires Ai.Acceptable(a)
    requires Trimmed(encode(Ai.ToJson(a))) && decode(encode(Ai.ToJson(a))) == Some(Ai.ToJson(a))
    requires provider(Ai.ImagePayload(image), 0)
             == Ai.Message([Ai.TextBlock(Ai.JsonFence + "\n" + encode(Ai.ToJson(a)) + "\n" + Ai.Fence)])
    ensures Handle(Parsed(JObject(map["image" := JString(image)])),
                   (img: string) => Ai.AnalyzeImage(apiKey, img, provider, decode).result)
            == HttpReply(200, ApiResponse(true, Some(a), None))
  {
    var text := Ai.JsonFence + "\n" + encode(Ai.ToJson(a)) + "\n" + Ai.Fence;
    Ai.ParseRoundTrip(a, encode, decode);
    Ai.SucceedAtOnce(apiKey, image, provider, decode, text, a);
    var analyze := (img: string) => Ai.AnalyzeImage(apiKey, img, provider, decode).result;
    assert analyze(image) == Success(a);
    SuccessIs200(image, analyze, a);
  }
}
