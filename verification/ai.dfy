/**
 * `src/lib/ai.ts`: normalising the language model's free-text reply into an
 * analysis, and the bounded retry loop around the provider call.
 *
 * The provider is a parameter: `provider(payload, k)` is its reply to the
 * k-th call (0-based) carrying image payload `payload`. JSON decoding is the
 * parameter `decode`. The one-second back-off is counted, not slept.
 */
module Ai {
  import opened Wrappers
  import opened JsString
  import opened Json

  /** Upper bound on the sentences returned for one image. */
  const MaxSentences: nat := 5
  /** Provider calls per analysis. */
  const MaxAttempts: nat := 3

  const JsonFence := "```json"
  const Fence := "```"

  /**
   * The normalised reply. Elements are kept as decoded: the prompt asks for
   * sentences `{id, original, translation, structure, clauses?}` and key
   * phrases `{id, english, japanese, note?}`, but nothing checks their shape.
   */
  datatype Analysis = Analysis(sentences: seq<Json>, keyPhrases: seq<Json>)

  /** Why one call, or the whole analysis, failed. */
  datatype Failure =
    | MissingApiKey          // the credential is unset or empty
    | EmptyResponse          // the reply holds no text block
    | InvalidJson            // `JSON.parse` threw
    | NotAnObject            // the reply decoded to null or a primitive (TypeError)
    | NoTextFound            // both lists empty
    | RateLimited            // provider status 429
    | ServiceUnavailable     // provider status 401 or 403
    | ProviderStatus(status: int)  // any other provider status
    | ConnectionFailure      // no status: network error, timeout
    | ApiError               // the fallback after the loop

  /** Failures the loop retries while attempts remain. */
  predicate Retryable(f: Failure) {
    f.EmptyResponse? || f.InvalidJson? || f.NotAnObject? || f.ProviderStatus? || f.ConnectionFailure?
  }

  /** Failures that end the loop at once. */
  predicate Decisive(f: Failure) {
    f.NoTextFound? || f.RateLimited? || f.ServiceUnavailable?
  }

  datatype ContentBlock = TextBlock(text: string) | OtherBlock

  /** What the provider does with one call. */
  datatype ProviderReply =
    | Message(content: seq<ContentBlock>)
    | StatusError(status: int)
    | ConnectionError

  // ---------------------------------------------------------------------------
  // Reply normalisation (parseAiResponse)
  // ---------------------------------------------------------------------------

  /** Removes one opening fence, trying the tagged form before the bare one. */
  function StripOpeningFence(t: string): string {
    if StartsWith(t, JsonFence) then t[|JsonFence|..]
    else if StartsWith(t, Fence) then t[|Fence|..]
    else t
  }

  /** Removes one closing fence. */
  function StripClosingFence(u: string): string {
    if EndsWith(u, Fence) then u[..|u| - |Fence|] else u
  }

  /** Trims, removes one opening fence (tagged or bare) and one closing fence, trims again. */
  function CleanReply(text: string): (r: string)
    ensures Trimmed(r)
  {
    Trim(StripClosingFence(StripOpeningFence(Trim(text))))
  }

  /** A list-valued property: kept when it is an array, `[]` when missing or of another type. */
  function ListField(j: Json, key: string): (r: seq<Json>)
    ensures Property(j, key).Some? && Property(j, key).value.JArray? ==> r == Property(j, key).value.items
    ensures !(Property(j, key).Some? && Property(j, key).value.JArray?) ==> r == []
  {
    match Property(j, key)
    case Some(JArray(items)) => items
    case _ => []
  }

  /** The copyright guard: at most `MaxSentences`, the first ones, in order. */
  function Truncate(sentences: seq<Json>): (r: seq<Json>)
    ensures |r| == Min(|sentences|, MaxSentences)
    ensures r == sentences[..|r|]
  {
    if |sentences| > MaxSentences then sentences[..MaxSentences] else sentences
  }

  /** `parseAiResponse`: clean, decode, default both lists, truncate the sentences. */
  function ParseReply(text: string, decode: string -> Option<Json>): (r: Result<Analysis, Failure>)
    ensures decode(CleanReply(text)).None? ==> r == Failure(InvalidJson)
    ensures (&& decode(CleanReply(text)).Some?
             && !decode(CleanReply(text)).value.JObject?
             && !decode(CleanReply(text)).value.JArray?) ==> r == Failure(NotAnObject)
    ensures r.Success? <==> decode(CleanReply(text)).Some?
                            && (decode(CleanReply(text)).value.JObject? || decode(CleanReply(text)).value.JArray?)
    ensures r.Failure? ==> r.error == InvalidJson || r.error == NotAnObject
    ensures r.Success? ==> |r.value.sentences| <= MaxSentences
    ensures r.Success? ==>
      var j := decode(CleanReply(text)).value;
      && (j.JObject? || j.JArray?)
      && r.value.sentences == Truncate(ListField(j, "sentences"))
      && r.value.keyPhrases == ListField(j, "key_phrases")
  {
    match decode(CleanReply(text))
    case None => Failure(InvalidJson)
    case Some(j) =>
      if j.JObject? || j.JArray? then
        Success(Analysis(Truncate(ListField(j, "sentences")), ListField(j, "key_phrases")))
      else
        Failure(NotAnObject)
  }

  /** The JSON object an analysis serialises to. */
  function ToJson(a: Analysis): Json {
    JObject(map["sentences" := JArray(a.sentences), "key_phrases" := JArray(a.keyPhrases)])
  }

  // ---------------------------------------------------------------------------
  // One provider call
  // ---------------------------------------------------------------------------

  /** The outcome of one attempt: decided for good, or worth another call. */
  datatype Step = Finish(result: Result<Analysis, Failure>) | Retry(failure: Failure)

  /** `content.find(block => block.type === "text")`. */
  function FirstText(content: seq<ContentBlock>): (r: Option<string>)
    ensures r.None? <==> forall i :: 0 <= i < |content| ==> !content[i].TextBlock?
    ensures r.Some? ==> exists i :: 0 <= i < |content| && content[i] == TextBlock(r.value)
                                    && forall k :: 0 <= k < i ==> !content[k].TextBlock?
  {
    if |content| == 0 then None
    else if content[0].TextBlock? then Some(content[0].text)
    else
      var r := FirstText(content[1..]);
      assert r.Some? ==> exists i :: 0 <= i < |content[1..]| && content[1..][i] == TextBlock(r.value)
                                     && forall k :: 0 <= k < i ==> !content[1..][k].TextBlock?;
      assert r.Some? ==> exists i :: 0 <= i < |content| && content[i] == TextBlock(r.value)
                                     && forall k :: 0 <= k < i ==> !content[k].TextBlock? by {
        if r.Some? {
          var i :| 0 <= i < |content[1..]| && content[1..][i] == TextBlock(r.value)
                   && forall k :: 0 <= k < i ==> !content[1..][k].TextBlock?;
          assert content[i + 1] == TextBlock(r.value);
        }
      }
      r
  }

  /** The body of one loop iteration together with its `catch` classification. */
  function Attempt(reply: ProviderReply, decode: string -> Option<Json>): (s: Step)
    ensures s.Retry? ==> Retryable(s.failure)
    ensures s.Finish? && s.result.Failure? ==> Decisive(s.result.error)
    ensures s.Finish? && s.result.Success? ==>
      && |s.result.value.sentences| <= MaxSentences
      && (|s.result.value.sentences| > 0 || |s.result.value.keyPhrases| > 0)
    ensures reply.StatusError? && reply.status == 429 ==> s == Finish(Failure(RateLimited))
    ensures reply.StatusError? && (reply.status == 401 || reply.status == 403) ==> s == Finish(Failure(ServiceUnavailable))
    ensures reply.StatusError? && reply.status != 429 && reply.status != 401 && reply.status != 403 ==>
      s == Retry(ProviderStatus(reply.status))
    ensures reply.ConnectionError? ==> s == Retry(ConnectionFailure)
    ensures reply.Message? && FirstText(reply.content).None? ==> s == Retry(EmptyResponse)
    ensures (&& reply.Message? && FirstText(reply.content).Some?
             && ParseReply(FirstText(reply.content).value, decode).Failure?) ==>
      s == Retry(ParseReply(FirstText(reply.content).value, decode).error)
    ensures (&& reply.Message? && FirstText(reply.content).Some?
             && ParseReply(FirstText(reply.content).value, decode).Success?) ==>
      var a := ParseReply(FirstText(reply.content).value, decode).value;
      s == (if |a.sentences| == 0 && |a.keyPhrases| == 0 then Finish(Failure(NoTextFound)) else Finish(Success(a)))
  {
    match reply
    case Message(content) =>
      (match FirstText(content)
       case None => Retry(EmptyResponse)
       case Some(text) =>
         (match ParseReply(text, decode)
          case Failure(e) => Retry(e)
          case Success(a) =>
            if |a.sentences| == 0 && |a.keyPhrases| == 0 then Finish(Failure(NoTextFound))
            else Finish(Success(a))))
    case StatusError(status) =>
      if status == 429 then Finish(Failure(RateLimited))
      else if status == 401 || status == 403 then Finish(Failure(ServiceUnavailable))
      else Retry(ProviderStatus(status))
    case ConnectionError => Retry(ConnectionFailure)
  }

  // ---------------------------------------------------------------------------
  // The retry loop (analyzeImage)
  // ---------------------------------------------------------------------------

  /**
   * The `catch` block's choice, stated as a whole: a call is retried exactly
   * when the connection failed, the provider answered with a status other
   * than 429, 401 and 403, the reply held no text block, or its text did not
   * parse.
   */
  lemma RetriedExactlyWhen(reply: ProviderReply, decode: string -> Option<Json>)
    ensures Attempt(reply, decode).Retry? <==>
      || reply.ConnectionError?
      || (reply.StatusError? && reply.status != 429 && reply.status != 401 && reply.status != 403)
      || (reply.Message? && FirstText(reply.content).None?)
      || (reply.Message? && FirstText(reply.content).Some?
          && ParseReply(FirstText(reply.content).value, decode).Failure?)
  {
  }

  /** The image data sent to the provider: the part after the data-URL header. */
  function ImagePayload(image: string): (r: string)
    ensures ',' !in image ==> r == image
    ensures ',' in image ==> ',' !in r && |r| < |image| && FollowsFirstSeparator(image, ',', r)
  {
    if ',' in image then SecondField(image, ',') else image
  }

  /** `!apiKey`: unset or the empty string. */
  predicate KeyMissing(apiKey: Option<string>) {
    apiKey.None? || apiKey.value == ""
  }

  /** The final outcome, the number of provider calls and the number of back-off waits. */
  datatype Run = Run(result: Result<Analysis, Failure>, calls: nat, waits: nat)

  /**
   * The retry policy from attempt `attempt` on, over the classified outcome
   * `steps(k)` of each call. Every call before the last one was a retryable
   * failure and was followed by one wait; the last call either decided the
   * outcome or was the final attempt, whose failure is rethrown.
   */
  function RunFrom(steps: nat -> Step, attempt: nat): (r: Run)
    requires attempt < MaxAttempts
    ensures 1 <= r.calls <= MaxAttempts - attempt
    ensures r.waits == r.calls - 1
    ensures forall k :: attempt <= k < attempt + r.calls - 1 ==> steps(k).Retry?
    ensures steps(attempt + r.calls - 1).Finish? ==> r.result == steps(attempt + r.calls - 1).result
    ensures steps(attempt + r.calls - 1).Retry? ==>
      attempt + r.calls == MaxAttempts && r.result == Failure(steps(attempt + r.calls - 1).failure)
    decreases MaxAttempts - attempt
  {
    var step := steps(attempt);
    if step.Finish? then Run(step.result, 1, 0)
    else if attempt == MaxAttempts - 1 then Run(Failure(step.failure), 1, 0)
    else
      var rest := RunFrom(steps, attempt + 1);
      assert forall k :: attempt <= k < attempt + rest.calls ==> steps(k).Retry? by {
        forall k | attempt <= k < attempt + rest.calls
          ensures steps(k).Retry?
        {
          if k == attempt {
            assert steps(k) == step;
          }
        }
      }
      Run(rest.result, rest.calls + 1, rest.waits + 1)
  }

  /** The classified outcome of every call the loop may make for `payload`. */
  function Steps(payload: string, provider: (string, nat) -> ProviderReply,
                 decode: string -> Option<Json>): nat -> Step
  {
    (k: nat) => Attempt(provider(payload, k), decode)
  }

  /** A result the loop may return: within the sentence bound and not empty. */
  predicate Acceptable(a: Analysis) {
    |a.sentences| <= MaxSentences && (|a.sentences| > 0 || |a.keyPhrases| > 0)
  }

  /**
   * `analyzeImage`: no call without a key, otherwise the retry loop from
   * attempt 0. At most three calls with one wait between consecutive calls;
   * the trailing API_ERROR is never produced; a success is acceptable.
   */
  function AnalyzeImage(apiKey: Option<string>, image: string,
                        provider: (string, nat) -> ProviderReply,
                        decode: string -> Option<Json>): (r: Run)
    ensures r.calls <= MaxAttempts
    ensures r.calls == 0 <==> KeyMissing(apiKey)
    ensures KeyMissing(apiKey) ==> r.result == Failure(MissingApiKey)
    ensures r.calls > 0 ==> r.waits == r.calls - 1
    ensures r.result != Failure(ApiError)
    ensures r.result.Success? ==> Acceptable(r.result.value)
  {
    if KeyMissing(apiKey) then Run(Failure(MissingApiKey), 0, 0)
    else
      var steps := Steps(ImagePayload(image), provider, decode);
      var r := RunFrom(steps, 0);
      var last := steps(r.calls - 1);
      assert last == Attempt(provider(ImagePayload(image), r.calls - 1), decode);
      r
  }

  /** The loop as written: at most `MaxAttempts` iterations, waiting only between them. */
  method AnalyzeImageLoop(apiKey: Option<string>, image: string,
                          provider: (string, nat) -> ProviderReply,
                          decode: string -> Option<Json>)
    returns (result: Result<Analysis, Failure>, calls: nat, waits: nat)
    ensures Run(result, calls, waits) == AnalyzeImage(apiKey, image, provider, decode)
  {
    if KeyMissing(apiKey) {
      return Failure(MissingApiKey), 0, 0;
    }
    var payload := ImagePayload(image);
    ghost var steps := Steps(payload, provider, decode);
    ghost var whole := RunFrom(steps, 0);
    calls, waits := 0, 0;
    var attempt := 0;
    while attempt < MaxAttempts
      invariant attempt < MaxAttempts
      invariant calls == attempt && waits == attempt
      invariant whole.result == RunFrom(steps, attempt).result
      invariant whole.calls == attempt + RunFrom(steps, attempt).calls
      invariant whole.waits == attempt + RunFrom(steps, attempt).waits
    {
      var step := Attempt(provider(payload, attempt), decode);
      assert step == steps(attempt);
      calls := calls + 1;
      match step
      case Finish(r) =>
        return r, calls, waits;
      case Retry(failure) =>
        if attempt == MaxAttempts - 1 {
          return Failure(failure), calls, waits;
        }
        waits := waits + 1;
        attempt := attempt + 1;
    }
    result := Failure(ApiError);
  }

  // ---------------------------------------------------------------------------
  // Properties of the normaliser
  // ---------------------------------------------------------------------------

  lemma FenceIsTrimmed(s: string)
    requires |s| > 0 && s[0] == '`' && s[|s| - 1] == '`'
    ensures Trimmed(s)
  {
  }

  lemma StripTaggedOpening(x: string)
    ensures StripOpeningFence(JsonFence + x) == x
  {
    assert (JsonFence + x)[..|JsonFence|] == JsonFence;
  }

  lemma StripBareOpening(s: string)
    requires !StartsWith(s, "json")
    ensures StripOpeningFence(Fence + s + Fence) == s + Fence
  {
    var f := Fence + s + Fence;
    assert !StartsWith(f, JsonFence) by {
      if |s| >= 4 {
        assert f[3..7] == s[..4];
      } else {
        assert f[3 + |s|] == '`';
        assert JsonFence[3 + |s|] != '`';
      }
    }
    assert f[..|Fence|] == Fence;
    assert f[|Fence|..] == s + Fence;
  }

  lemma StripClosing(x: string)
    ensures StripClosingFence(x + Fence) == x
  {
    assert (x + Fence)[|x + Fence| - |Fence|..] == Fence;
    assert (x + Fence)[..|x + Fence| - |Fence|] == x;
  }

  /**
   * A reply wrapped in a tagged fence, with any whitespace around it, cleans
   * to the trimmed payload. The tagged test comes first, so the tag is never
   * left behind, whatever the payload ends with.
   */
  lemma CleanTaggedFence(w1: string, s: string, w2: string)
    requires AllWhitespace(w1) && AllWhitespace(w2)
    ensures CleanReply(w1 + JsonFence + s + Fence + w2) == Trim(s)
  {
    var f := JsonFence + (s + Fence);
    FenceIsTrimmed(f);
    assert w1 + JsonFence + s + Fence + w2 == w1 + f + w2;
    TrimUnique(w1, f, w2);
    StripTaggedOpening(s + Fence);
    StripClosing(s);
  }

  /** A bare fence cleans the same way, unless the payload itself starts with "json". */
  lemma CleanBareFence(w1: string, s: string, w2: string)
    requires AllWhitespace(w1) && AllWhitespace(w2)
    requires !StartsWith(s, "json")
    ensures CleanReply(w1 + Fence + s + Fence + w2) == Trim(s)
  {
    var f := Fence + s + Fence;
    FenceIsTrimmed(f);
    assert w1 + Fence + s + Fence + w2 == w1 + f + w2;
    TrimUnique(w1, f, w2);
    StripBareOpening(s);
    StripClosing(s);
  }

  /** Whitespace before a non-empty trimmed text cannot make it end in a fence it lacks. */
  lemma NoFenceAfterMargin(a: string, t: string)
    requires AllWhitespace(a) && Trimmed(t) && |t| > 0 && !EndsWith(t, Fence)
    ensures !EndsWith(a + t, Fence)
  {
    var u := a + t;
    if |t| >= |Fence| {
      assert u[|u| - |Fence|..] == t[|t| - |Fence|..];
    } else if |u| >= |Fence| {
      var i := |u| - |Fence|;
      assert u[i] == a[i] && IsWhitespace(a[i]);
      assert u[|u| - |Fence|..][0] == u[i];
    }
  }

  lemma WhitespaceJoin(a: string, b: string)
    requires AllWhitespace(a) && AllWhitespace(b)
    ensures AllWhitespace(a + b)
  {
    forall i | 0 <= i < |a + b| ensures IsWhitespace((a + b)[i]) {
      if i >= |a| {
        assert (a + b)[i] == b[i - |a|];
      }
    }
  }

  /** An opening fence followed by nothing but whitespace cleans to "". */
  lemma CleanBareOpeningTag(w1: string, w: string)
    requires AllWhitespace(w1) && AllWhitespace(w)
    ensures CleanReply(w1 + JsonFence + w) == []
  {
    TrimUnique(w1, JsonFence, w);
    StripTaggedOpening([]);
    assert JsonFence + [] == JsonFence;
    TrimUnique([], [], []);
  }

  /** An opening fence before a text that does not end in a fence cleans to the text. */
  lemma CleanOpeningTagBefore(w1: string, a: string, t: string, b: string)
    requires AllWhitespace(w1) && AllWhitespace(a) && AllWhitespace(b) && Trimmed(t)
    requires |t| > 0 && !EndsWith(t, Fence)
    ensures CleanReply(w1 + (JsonFence + (a + t)) + b) == t
  {
    var f := JsonFence + (a + t);
    assert f[|f| - 1] == t[|t| - 1];
    TrimUnique(w1, f, b);
    StripTaggedOpening(a + t);
    NoFenceAfterMargin(a, t);
    TrimUnique(a, t, []);
    assert a + t + [] == a + t;
  }

  /**
   * A reply cut off after its opening fence (no closing fence) cleans to the
   * text after the fence, trimmed: the opening and the closing fence are
   * removed independently.
   */
  lemma CleanOpeningFenceOnly(w1: string, a: string, t: string, b: string)
    requires AllWhitespace(w1) && AllWhitespace(a) && AllWhitespace(b) && Trimmed(t)
    requires !EndsWith(t, Fence)
    ensures Trim(a + t + b) == t
    ensures CleanReply(w1 + JsonFence + a + t + b) == t
  {
    TrimUnique(a, t, b);
    if t == [] {
      assert w1 + JsonFence + a + t + b == w1 + JsonFence + (a + b);
      WhitespaceJoin(a, b);
      CleanBareOpeningTag(w1, a + b);
    } else {
      assert w1 + JsonFence + a + t + b == w1 + (JsonFence + (a + t)) + b;
      CleanOpeningTagBefore(w1, a, t, b);
    }
  }

  /** A closing fence after nothing but whitespace cleans to "". */
  lemma CleanLoneClosing(w: string, w2: string)
    requires AllWhitespace(w) && AllWhitespace(w2)
    ensures CleanReply(w + Fence + w2) == []
  {
    TrimUnique(w, Fence, w2);
    assert StripOpeningFence(Fence) == [] by {
      assert !StartsWith(Fence, JsonFence);
      assert Fence[..|Fence|] == Fence;
    }
    TrimUnique([], [], []);
  }

  /** A text not starting with a backtick has no opening fence to strip. */
  lemma NoOpeningFence(f: string)
    requires |f| > 0 && f[0] != '`'
    ensures StripOpeningFence(f) == f
  {
    if |f| >= |Fence| {
      assert f[..|Fence|][0] == f[0];
    }
    if |f| >= |JsonFence| {
      assert f[..|JsonFence|][0] == f[0];
    }
  }

  /** A text not starting with a backtick, then a closing fence, cleans to the text. */
  lemma CleanClosingAfter(a: string, t: string, b: string, w2: string)
    requires AllWhitespace(a) && AllWhitespace(b) && AllWhitespace(w2) && Trimmed(t)
    requires |t| > 0 && t[0] != '`'
    ensures CleanReply(a + ((t + b) + Fence) + w2) == t
  {
    var f := (t + b) + Fence;
    assert f[0] == t[0];
    TrimUnique(a, f, w2);
    NoOpeningFence(f);
    StripClosing(t + b);
    TrimUnique([], t, b);
    assert [] + t + b == t + b;
  }

  /**
   * A reply with only a closing fence cleans to the text before it, trimmed,
   * when that text does not itself begin with a backtick.
   */
  lemma CleanClosingFenceOnly(a: string, t: string, b: string, w2: string)
    requires AllWhitespace(a) && AllWhitespace(b) && AllWhitespace(w2) && Trimmed(t)
    requires t == [] || t[0] != '`'
    ensures Trim(a + t + b) == t
    ensures CleanReply(a + t + b + Fence + w2) == t
  {
    TrimUnique(a, t, b);
    if t == [] {
      assert a + t + b + Fence + w2 == (a + b) + Fence + w2;
      WhitespaceJoin(a, b);
      CleanLoneClosing(a + b, w2);
    } else {
      assert a + t + b + Fence + w2 == a + ((t + b) + Fence) + w2;
      CleanClosingAfter(a, t, b, w2);
    }
  }

  lemma TaggedFenceIsFence(t: string)
    ensures StartsWith(t, JsonFence) ==> StartsWith(t, Fence)
  {
    if StartsWith(t, JsonFence) {
      assert t[..3] == JsonFence[..3];
    }
  }

  /** Without fences, cleaning is trimming. */
  lemma CleanUnfenced(text: string)
    requires !StartsWith(Trim(text), Fence) && !EndsWith(Trim(text), Fence)
    ensures CleanReply(text) == Trim(text)
  {
    TaggedFenceIsFence(Trim(text));
    assert StripOpeningFence(Trim(text)) == Trim(text);
    TrimIdempotent(text);
  }

  /** A tagged fence on lines of their own around an already trimmed payload cleans to the payload. */
  lemma CleanFencedLines(e: string)
    requires Trimmed(e)
    ensures CleanReply(JsonFence + "\n" + e + "\n" + Fence) == e
  {
    assert JsonFence + "\n" + e + "\n" + Fence == [] + JsonFence + ("\n" + e + "\n") + Fence + [];
    CleanTaggedFence([], "\n" + e + "\n", []);
    TrimUnique("\n", e, "\n");
  }

  lemma ToJsonFields(a: Analysis)
    ensures ListField(ToJson(a), "sentences") == a.sentences
    ensures ListField(ToJson(a), "key_phrases") == a.keyPhrases
  {
    assert "sentences" != "key_phrases" by {
      assert "sentences"[0] != "key_phrases"[0];
    }
  }

  /**
   * Round trip: an analysis within the sentence bound, serialised by any
   * encoder the decoder inverts and wrapped in a tagged fence (as the model
   * tends to reply), normalises back to itself.
   */
  lemma ParseRoundTrip(a: Analysis, encode: Json -> string, decode: string -> Option<Json>)
    requires |a.sentences| <= MaxSentences
    requires Trimmed(encode(ToJson(a)))
    requires decode(encode(ToJson(a))) == Some(ToJson(a))
    ensures ParseReply(JsonFence + "\n" + encode(ToJson(a)) + "\n" + Fence, decode) == Success(a)
  {
    CleanFencedLines(encode(ToJson(a)));
    ToJsonFields(a);
  }

  /** A reply that decodes to an array carries neither list, so it is a terminal NO_TEXT_FOUND. */
  lemma ArrayReplyFindsNoText(text: string, items: seq<Json>, decode: string -> Option<Json>)
    requires decode(CleanReply(text)) == Some(JArray(items))
    ensures Attempt(Message([TextBlock(text)]), decode) == Finish(Failure(NoTextFound))
  {
    assert FirstText([TextBlock(text)]) == Some(text);
  }

  // ---------------------------------------------------------------------------
  // Properties of the retry loop
  // ---------------------------------------------------------------------------

  /**
   * The first attempt whose outcome is decisive (success, NO_TEXT_FOUND, 429,
   * 401/403) ends the loop: its result is returned after exactly that many
   * calls and one wait fewer.
   */
  lemma FirstDecisiveAttempt(steps: nat -> Step, k: nat)
    requires k < MaxAttempts
    requires forall j :: 0 <= j < k ==> steps(j).Retry?
    requires steps(k).Finish?
    ensures RunFrom(steps, 0) == Run(steps(k).result, k + 1, k)
  {
    var r := RunFrom(steps, 0);
    assert r.calls - 1 == k;
  }

  /** When every attempt fails retryably, the third failure itself is rethrown. */
  lemma ExhaustedRethrowsLast(steps: nat -> Step)
    requires forall j :: 0 <= j < MaxAttempts ==> steps(j).Retry?
    ensures RunFrom(steps, 0) == Run(Failure(steps(MaxAttempts - 1).failure), 3, 2)
  {
    var r := RunFrom(steps, 0);
    assert steps(r.calls - 1).Retry?;
  }

  /** Two transient failures, then a usable reply: success after three calls and two waits. */
  lemma RetryThenSucceed(apiKey: Option<string>, image: string,
                         provider: (string, nat) -> ProviderReply, decode: string -> Option<Json>,
                         text: string, a: Analysis)
    requires !KeyMissing(apiKey)
    requires provider(ImagePayload(image), 0) == ConnectionError
    requires provider(ImagePayload(image), 1) == StatusError(500)
    requires provider(ImagePayload(image), 2) == Message([TextBlock(text)])
    requires ParseReply(text, decode) == Success(a) && (|a.sentences| > 0 || |a.keyPhrases| > 0)
    ensures AnalyzeImage(apiKey, image, provider, decode) == Run(Success(a), 3, 2)
  {
    var steps := Steps(ImagePayload(image), provider, decode);
    assert steps(0) == Attempt(ConnectionError, decode);
    assert steps(1) == Attempt(StatusError(500), decode);
    assert FirstText([TextBlock(text)]) == Some(text);
    assert steps(2) == Attempt(Message([TextBlock(text)]), decode);
    FirstDecisiveAttempt(steps, 2);
  }

  /** A usable reply to the first call is returned at once: one call, no wait. */
  lemma SucceedAtOnce(apiKey: Option<string>, image: string,
                      provider: (string, nat) -> ProviderReply, decode: string -> Option<Json>,
                      text: string, a: Analysis)
    requires !KeyMissing(apiKey)
    requires provider(ImagePayload(image), 0) == Message([TextBlock(text)])
    requires ParseReply(text, decode) == Success(a) && Acceptable(a)
    ensures AnalyzeImage(apiKey, image, provider, decode) == Run(Success(a), 1, 0)
  {
    var steps := Steps(ImagePayload(image), provider, decode);
    assert FirstText([TextBlock(text)]) == Some(text);
    assert steps(0) == Attempt(Message([TextBlock(text)]), decode);
    FirstDecisiveAttempt(steps, 0);
  }

  /** A 429 on the first call fails at once with RATE_LIMITED: one call, no wait. */
  lemma RateLimitedAtOnce(apiKey: Option<string>, image: string,
                          provider: (string, nat) -> ProviderReply, decode: string -> Option<Json>)
    requires !KeyMissing(apiKey)
    requires provider(ImagePayload(image), 0) == StatusError(429)
    ensures AnalyzeImage(apiKey, image, provider, decode) == Run(Failure(RateLimited), 1, 0)
  {
    var steps := Steps(ImagePayload(image), provider, decode);
    assert steps(0) == Attempt(StatusError(429), decode);
    FirstDecisiveAttempt(steps, 0);
  }

  /** A 401 or 403 on any call fails at once with SERVICE_UNAVAILABLE. */
  lemma AuthFailureAtOnce(apiKey: Option<string>, image: string,
                          provider: (string, nat) -> ProviderReply, decode: string -> Option<Json>,
                          k: nat)
    requires !KeyMissing(apiKey) && k < MaxAttempts
    requires forall j :: 0 <= j < k ==> Attempt(provider(ImagePayload(image), j), decode).Retry?
    requires provider(ImagePayload(image), k) == StatusError(401) || provider(ImagePayload(image), k) == StatusError(403)
    ensures AnalyzeImage(apiKey, image, provider, decode) == Run(Failure(ServiceUnavailable), k + 1, k)
  {
    var steps := Steps(ImagePayload(image), provider, decode);
    assert forall j :: 0 <= j < k ==> steps(j).Retry?;
    assert steps(k) == Attempt(provider(ImagePayload(image), k), decode);
    FirstDecisiveAttempt(steps, k);
  }

  /** A reply whose lists are both empty ends the loop with NO_TEXT_FOUND, with no further call. */
  lemma EmptyListsStopTheLoop(apiKey: Option<string>, image: string,
                              provider: (string, nat) -> ProviderReply, decode: string -> Option<Json>,
                              k: nat, text: string)
    requires !KeyMissing(apiKey) && k < MaxAttempts
    requires forall j :: 0 <= j < k ==> Attempt(provider(ImagePayload(image), j), decode).Retry?
    requires provider(ImagePayload(image), k) == Message([TextBlock(text)])
    requires ParseReply(text, decode) == Success(Analysis([], []))
    ensures AnalyzeImage(apiKey, image, provider, decode) == Run(Failure(NoTextFound), k + 1, k)
  {
    var steps := Steps(ImagePayload(image), provider, decode);
    assert forall j :: 0 <= j < k ==> steps(j).Retry?;
    assert FirstText([TextBlock(text)]) == Some(text);
    assert steps(k) == Attempt(Message([TextBlock(text)]), decode);
    FirstDecisiveAttempt(steps, k);
  }

  /** A data URL `header + "," + data` sends exactly `data`. */
  lemma DataUrlSendsData(header: string, data: string)
    requires ',' !in header && ',' !in data
    ensures ImagePayload(header + "," + data) == data
  {
    SecondFieldOfPair(header, ',', data);
    assert header + "," + data == header + [','] + data;
  }
}
