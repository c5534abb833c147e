/**
 The caption-generation endpoint: authenticate, require an image URL, then
 either call a configured captioning API and normalise what it returns, or
 fall back to a fixed list of ten mock captions.

 The auth service, the request body parser and the captioning API are
 parameters: the session and the parsed body are inputs, and the API is a
 function from the request the handler sends to the outcome it observes.
 */
module Captions {
  import opened Js
  import opened Http
  import Text

  /** One caption in a response: a 1-based position and its text. */
  datatype Caption = Caption(id: nat, text: string)

  /** The JSON body `{ imageUrl, context? }`; a field is `None` when absent or null. */
  datatype CaptionRequest = CaptionRequest(imageUrl: Option<string>, context: Option<string>)

  /** What `request.json()` produced: the body, or the value it threw. */
  datatype Body = Parsed(request: CaptionRequest) | Unreadable(thrown: Thrown)

  /** `CAPTION_API_URL` and `CAPTION_API_KEY`, each possibly unset. */
  datatype Config = Config(apiUrl: Option<string>, apiKey: Option<string>)

  /** The POST the handler sends to the captioning API: its URL, the
      `Authorization` header and the JSON body `{ image_url, context, num_captions }`. */
  datatype ApiCall = ApiCall(url: string, authorization: string, imageUrl: string,
                             context: Option<string>, numCaptions: nat)

  /** An element of the API's caption array: a bare string or an object with a `text` field. */
  datatype Item = StringItem(s: string) | ObjectItem(text: string)

  /** The fields of the API's JSON result the handler reads; `None` when absent or null. */
  datatype ApiResult = ApiResult(captions: Option<seq<Item>>, data: Option<seq<Item>>)

  /** What the handler observes of the API call: a non-2xx response (its body
      text is only logged), a 2xx response with its JSON, or a thrown value
      (network failure, unparsable JSON). */
  datatype Upstream = NotOk(errorText: string) | Received(result: ApiResult) | Threw(thrown: Thrown)

  /** The 200 body `{ success: true, imageUrl, context, captions }`. */
  datatype Success = Success(imageUrl: string, context: Option<string>, captions: seq<Caption>)

  /** The handler's response together with the API call it made, if any. */
  datatype Exchange = Exchange(response: Response<Success>, call: Option<ApiCall>)

  const MockTexts: seq<string> := [
    "When you realize it's only Tuesday",
    "Me pretending to understand the assignment",
    "POV: You just checked your bank account",
    "When someone says 'we need to talk'",
    "My last brain cell during finals week",
    "When the WiFi disconnects mid-submit",
    "Trying to adult but failing spectacularly",
    "When you see your professor outside of class",
    "My motivation at 2am vs 2pm",
    "When the group project partner finally responds"
  ]

  const ImageUrlRequired: string := "Image URL is required"
  const ApiFailure: string := "Failed to generate captions from external API"
  const Fallback: string := "Failed to generate captions"
  const RequestedCount: nat := 10

  /** The texts of a caption list, in order. */
  function Texts(cs: seq<Caption>): seq<string> {
    seq(|cs|, i requires 0 <= i < |cs| => cs[i].text)
  }

  /** Captions for `texts` numbered consecutively from `first`. */
  function NumberFrom(texts: seq<string>, first: nat): (cs: seq<Caption>)
    ensures |cs| == |texts|
    ensures forall i :: 0 <= i < |cs| ==> cs[i].id == first + i && cs[i].text == texts[i]
    decreases |texts|
  {
    if |texts| == 0 then []
    else [Caption(first, texts[0])] + NumberFrom(texts[1..], first + 1)
  }

  /** `texts.map((text, index) => ({ id: index + 1, text }))`. */
  function Numbered(texts: seq<string>): (cs: seq<Caption>)
    ensures Texts(cs) == texts
    ensures forall i :: 0 <= i < |cs| ==> cs[i].id == i + 1
  {
    NumberFrom(texts, 1)
  }

  /** The fallback generator: the ten fixed texts, the first two replaced by
      context-aware variants when the context is truthy, numbered 1..10. */
  function MockCaptions(context: Option<string>): (cs: seq<Caption>)
    ensures |cs| == 10
    ensures forall i :: 0 <= i < 10 ==> cs[i].id == i + 1
    ensures !Truthy(context) ==> forall i :: 0 <= i < 10 ==> cs[i].text == MockTexts[i]
    ensures Truthy(context) ==>
      && cs[0].text == context.value + ": expectations vs reality"
      && cs[1].text == "When " + Text.ToLower(context.value) + " hits different"
      && forall i :: 2 <= i < 10 ==> cs[i].text == MockTexts[i]
  {
    var texts :=
      if Truthy(context) then
        MockTexts[0 := context.value + ": expectations vs reality"]
                 [1 := "When " + Text.ToLower(context.value) + " hits different"]
      else MockTexts;
    Numbered(texts)
  }

  /** `typeof caption === 'string' ? caption : caption.text`. */
  function ItemText(item: Item): (text: string)
    ensures item.StringItem? ==> text == item.s
    ensures item.ObjectItem? ==> text == item.text
  {
    match item
    case StringItem(s) => s
    case ObjectItem(text) => text
  }

  /** `result.captions || result.data || []`: an array, even an empty one, is
      truthy, so a present `captions` wins over `data`. */
  function SourceItems(result: ApiResult): (items: seq<Item>)
    ensures result.captions.Some? ==> items == result.captions.value
    ensures result.captions.None? && result.data.Some? ==> items == result.data.value
    ensures result.captions.None? && result.data.None? ==> items == []
  {
    match result.captions
    case Some(cs) => cs
    case None =>
      match result.data
      case Some(ds) => ds
      case None => []
  }

  /** The API result mapped to the response's caption format. */
  function Normalize(result: ApiResult): (cs: seq<Caption>)
    // A present `captions` array is the source, whatever `data` holds.
    ensures result.captions.Some? ==>
      && |cs| == |result.captions.value|
      && forall i :: 0 <= i < |cs| ==> cs[i].text == ItemText(result.captions.value[i])
    // Only when `captions` is absent is `data` read.
    ensures result.captions.None? && result.data.Some? ==>
      && |cs| == |result.data.value|
      && forall i :: 0 <= i < |cs| ==> cs[i].text == ItemText(result.data.value[i])
    ensures result.captions.None? && result.data.None? ==> cs == []
    ensures forall i :: 0 <= i < |cs| ==> cs[i].id == i + 1
  {
    var items := SourceItems(result);
    Numbered(seq(|items|, i requires 0 <= i < |items| => ItemText(items[i])))
  }

  /** The external API is used only when both settings are non-empty. */
  predicate UsesApi(config: Config)
    ensures UsesApi(config) ==> config.apiUrl.Some? && config.apiKey.Some?
    ensures UsesApi(config) ==> |config.apiUrl.value| > 0 && |config.apiKey.value| > 0
    ensures config.apiUrl.Some? && config.apiKey.Some? && config.apiUrl.value != "" && config.apiKey.value != ""
      ==> UsesApi(config)
  {
    Truthy(config.apiUrl) && Truthy(config.apiKey)
  }

  /** The request sent to a configured API. */
  function ApiRequest(url: string, key: string, request: CaptionRequest, imageUrl: string): (call: ApiCall)
    ensures call.url == url && call.imageUrl == imageUrl && call.context == request.context
    ensures Text.StartsWith(call.authorization, "Bearer ")
    ensures call.authorization[|"Bearer "|..] == key
    ensures call.numCaptions == 10
  {
    ApiCall(url, "Bearer " + key, imageUrl, request.context, RequestedCount)
  }

  /** The POST handler. */
  function Generate(session: Session, body: Body, config: Config, api: ApiCall -> Upstream): (x: Exchange)
    // Authentication comes first and alone decides a 401.
    ensures Status(x.response) == 401 <==> !SignedIn(session)
    ensures !SignedIn(session) ==> x.response.error == UnauthorizedMessage
    // A signed-in request without a truthy image URL is a 400.
    ensures Status(x.response) == 400 <==>
      SignedIn(session) && body.Parsed? && !Truthy(body.request.imageUrl)
    ensures Status(x.response) == 400 ==> x.response.error == ImageUrlRequired
    // The API is called exactly once when the request is valid and the API is configured, never otherwise.
    ensures x.call.Some? <==>
      SignedIn(session) && body.Parsed? && Truthy(body.request.imageUrl) && UsesApi(config)
    ensures x.call.Some? ==>
      x.call.value == ApiRequest(config.apiUrl.value, config.apiKey.value, body.request, body.request.imageUrl.value)
    // A non-2xx answer from the API is a 500 with a fixed message.
    ensures x.call.Some? && api(x.call.value).NotOk? ==> x.response == ErrorJson(500, ApiFailure)
    ensures x.call.Some? && api(x.call.value).Threw? ==>
      x.response == ErrorJson(500, MessageOf(api(x.call.value).thrown, Fallback))
    // A body that could not be read reaches the catch-all.
    ensures SignedIn(session) && body.Unreadable? ==>
      x.response == ErrorJson(500, MessageOf(body.thrown, Fallback)) && x.call.None?
    ensures x.call.Some? && api(x.call.value).Received? ==>
      x.response.Json? && x.response.body.captions == Normalize(api(x.call.value).result)
    // Without a configured API the mock captions are returned.
    ensures SignedIn(session) && body.Parsed? && Truthy(body.request.imageUrl) && !UsesApi(config) ==>
      x.response.Json? && x.response.body.captions == MockCaptions(body.request.context)
    // A success echoes the request's image URL and context.
    ensures x.response.Json? ==>
      && body.Parsed?
      && Some(x.response.body.imageUrl) == body.request.imageUrl
      && x.response.body.context == body.request.context
    ensures Status(x.response) in {200, 400, 401, 500}
  {
    if !SignedIn(session) then
      Exchange(Unauthorized(), None)
    else
      match body
      case Unreadable(e) => Exchange(Caught(e, Fallback), None)
      case Parsed(request) =>
        if !Truthy(request.imageUrl) then
          Exchange(ErrorJson(400, ImageUrlRequired), None)
        else
          var imageUrl := request.imageUrl.value;
          if UsesApi(config) then
            var call := ApiRequest(config.apiUrl.value, config.apiKey.value, request, imageUrl);
            var response :=
              match api(call)
              case NotOk(_) => Caught(ErrorInstance(ApiFailure), Fallback)
              case Threw(e) => Caught(e, Fallback)
              case Received(result) => Json(Success(imageUrl, request.context, Normalize(result)));
            Exchange(response, Some(call))
          else
            Exchange(Json(Success(imageUrl, request.context, MockCaptions(request.context))), None)
  }

  /** Without a session, nothing about the body, the configuration or the API matters. */
  lemma UnauthorizedIgnoresRequest(session: Session, b1: Body, b2: Body, c1: Config, c2: Config,
                                   a1: ApiCall -> Upstream, a2: ApiCall -> Upstream)
    requires !SignedIn(session)
    ensures Generate(session, b1, c1, a1) == Generate(session, b2, c2, a2)
  {
  }

  /** When the API is not configured, the answer does not depend on it. */
  lemma MockIgnoresApi(session: Session, body: Body, config: Config, a1: ApiCall -> Upstream, a2: ApiCall -> Upstream)
    requires !UsesApi(config)
    ensures Generate(session, body, config, a1) == Generate(session, body, config, a2)
  {
  }

  /** A present `captions` array shadows `data`, even when it is empty. */
  lemma EmptyCaptionsShadowData(data: Option<seq<Item>>)
    ensures Normalize(ApiResult(Some([]), data)) == []
  {
  }

  /** An API answering `{ captions: ["a", "b"] }` yields captions 1 "a" and 2 "b". */
  lemma TwoStringCaptions()
    ensures Normalize(ApiResult(Some([StringItem("a"), StringItem("b")]), None))
      == [Caption(1, "a"), Caption(2, "b")]
  {
    var cs := Normalize(ApiResult(Some([StringItem("a"), StringItem("b")]), None));
    assert cs[0] == Caption(1, "a") && cs[1] == Caption(2, "b");
  }

  /** The context "Monday" rewrites the first two texts; the rest are the fixed ones.
      (The context is a parameter so that the verifier does not unfold the
      generator on a literal argument.) */
  lemma MondayContext(context: string)
    requires context == "Monday"
    ensures MockCaptions(Some(context))[0].text == "Monday: expectations vs reality"
    ensures MockCaptions(Some(context))[1].text == "When monday hits different"
    ensures forall i :: 2 <= i < 10 ==> MockCaptions(Some(context))[i].text == MockTexts[i]
  {
    MondayFirst(context);
    LowerMonday(context);
    MondaySecond(context);
  }

  lemma MondayFirst(context: string)
    requires context == "Monday"
    ensures MockCaptions(Some(context))[0].text == "Monday: expectations vs reality"
  {
    assert Truthy(Some(context));
    MondayPrefix(context, MockCaptions(Some(context))[0].text);
  }

  lemma MondayPrefix(context: string, text: string)
    requires context == "Monday" && text == context + ": expectations vs reality"
    ensures text == "Monday: expectations vs reality"
  {
  }

  lemma MondaySecond(context: string)
    requires Truthy(Some(context)) && Text.ToLower(context) == "monday"
    ensures MockCaptions(Some(context))[1].text == "When monday hits different"
  {
    MondayMiddle(Text.ToLower(context), MockCaptions(Some(context))[1].text);
  }

  lemma MondayMiddle(lower: string, text: string)
    requires lower == "monday" && text == "When " + lower + " hits different"
    ensures text == "When monday hits different"
  {
  }

  lemma LowerMonday(s: string)
    requires s == "Monday"
    ensures Text.ToLower(s) == "monday"
  {
    var lower := Text.ToLower(s);
    assert forall i :: 1 <= i < 6 ==> !Text.IsUpper(s[i]);
    assert lower == "monday";
  }
}
