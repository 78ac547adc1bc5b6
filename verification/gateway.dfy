/**
 * The `/api/chat` route on its Gemini branch: the validation cascade, one
 * provider attempt and how its failure is signalled, the classification of
 * the error left after retries, and the post-processing of the reply. The
 * rate limiter runs first, in `Serve`. The provider is given as its answer
 * to each successive call.
 */
module Gateway {
  import opened Text
  import opened Personality
  import Retry
  import Mirror
  import RateLimiter

  const MaxMessageLength: int := 2000
  const MaxAttempts: int := 3
  const BaseDelay: int := 1000
  const MaxOutputTokens: int := 1024
  /** The error an attempt throws when the provider reports overload. */
  const OverloadMarker: string := "API_OVERLOAD"
  const GenericProviderError: string := "Gemini API error"
  const NoReply: string := "Sorry, I couldn't generate a response."

  /** A field of the parsed JSON body; `Undefined` is a missing field. */
  datatype JsValue = Undefined | Null | Bool(b: bool) | Number(n: real) | Str(s: string) | Array | Object

  /** JavaScript truthiness of a JSON value: the only falsy values a parsed
      body can hold are a missing field, `null`, `false`, `0` and "". */
  function Truthy(v: JsValue): (b: bool)
    ensures !b <==> v == Undefined || v == Null || v == Bool(false) || v == Number(0.0) || v == Str("")
  {
    match v
    case Undefined => false
    case Null => false
    case Bool(b) => b
    case Number(n) => n != 0.0
    case Str(s) => s != []
    case _ => true
  }

  datatype ChatBody = ChatBody(message: JsValue, personality: JsValue)

  datatype ValidationError =
    | MessageRequired
    | MessageNotNonEmptyString
    | MessageTooLong
    | InvalidPersonality(validPersonalities: seq<string>)

  /** The `error` text of a 400 answer. */
  function ErrorText(e: ValidationError): string {
    match e
    case MessageRequired => "Message is required"
    case MessageNotNonEmptyString => "Message must be a non-empty string"
    case MessageTooLong => "Message too long. Maximum 2000 characters."
    case InvalidPersonality(_) => "Invalid personality"
  }

  /** The error texts tell the four refusals apart. */
  lemma ErrorTextTellsApart(e1: ValidationError, e2: ValidationError)
    ensures ErrorText(e1) == ErrorText(e2) <==> e1 == e2 || (e1.InvalidPersonality? && e2.InvalidPersonality?)
  {
  }

  datatype Validated = Accepted(message: string, personality: Personality) | Refused(error: ValidationError)

  /** The personality field, defaulting to "friendly" only when it is missing. */
  function ResolvePersonality(v: JsValue): (r: Option<Personality>)
    ensures v.Undefined? ==> r == Some(RequestDefault)
    ensures v.Str? ==> (r.Some? <==> v.s in Keys)
    ensures v.Str? && r.Some? ==> Key(r.value) == v.s
    ensures !v.Undefined? && !v.Str? ==> r == None
  {
    match v
    case Undefined => Some(RequestDefault)
    case Str(name) => Parse(name)
    case _ => None
  }

  /** A message the route accepts: a string with a non-whitespace character
      and at most 2000 UTF-16 units. */
  predicate GoodMessage(v: JsValue) {
    v.Str? && !AllSpace(v.s) && Utf16Len(v.s) <= MaxMessageLength
  }

  /** The validation cascade, in order: missing or falsy message, then not a
      non-blank string, then too long, then unknown personality. */
  function Validate(body: ChatBody): (v: Validated)
    ensures v == Refused(MessageRequired) <==> !Truthy(body.message)
    ensures v == Refused(MessageNotNonEmptyString) <==>
              Truthy(body.message) && (!body.message.Str? || AllSpace(body.message.s))
    ensures v == Refused(MessageTooLong) <==>
              body.message.Str? && !AllSpace(body.message.s) && Utf16Len(body.message.s) > MaxMessageLength
    ensures v == Refused(InvalidPersonality(Keys)) <==>
              GoodMessage(body.message) && ResolvePersonality(body.personality).None?
    ensures v.Refused? ==> v.error.InvalidPersonality? ==> v.error.validPersonalities == Keys
    ensures v.Accepted? <==> GoodMessage(body.message) && ResolvePersonality(body.personality).Some?
    ensures v.Accepted? ==>
              && body.message == Str(v.message)
              && ResolvePersonality(body.personality) == Some(v.personality)
  {
    var m := body.message;
    if !Truthy(m) then Refused(MessageRequired)
    else if !m.Str? || Trim(m.s) == [] then Refused(MessageNotNonEmptyString)
    else if Utf16Len(m.s) > MaxMessageLength then Refused(MessageTooLong)
    else match ResolvePersonality(body.personality)
      case None => Refused(InvalidPersonality(Keys))
      case Some(p) => Accepted(m.s, p)
  }

  /** What one Gemini call answered: whether the response was ok, its HTTP
      status, its error message (empty when absent) and the reply text of
      the first candidate, if any. */
  datatype ProviderReply = ProviderReply(ok: bool, status: int, errorMessage: string, text: Option<string>)

  /** The attempt treats the failure as overload: status 429, or the
      message mentions overload or quota (case-sensitively). Only a failed
      call can signal it, a 429 always does, and without a message only a
      429 does. */
  function SignalsOverload(r: ProviderReply): (b: bool)
    ensures b ==> !r.ok
    ensures !r.ok && r.status == 429 ==> b
    ensures r.errorMessage == [] ==> (b <==> !r.ok && r.status == 429)
  {
    && !r.ok
    && (r.status == 429 || Contains(r.errorMessage, "overloaded") || Contains(r.errorMessage, "quota"))
  }

  /** One attempt: an ok response is returned; a failed one throws the
      overload marker or the provider's message (a generic one if empty). */
  function Attempt(r: ProviderReply): (o: Retry.Outcome<Option<string>, string>)
    ensures o.Ok? <==> r.ok
    ensures o.Ok? ==> o.value == r.text
    ensures SignalsOverload(r) ==> o == Retry.Err(OverloadMarker)
    ensures !r.ok && !SignalsOverload(r) && r.errorMessage != [] ==> o == Retry.Err(r.errorMessage)
    ensures !r.ok && r.errorMessage == [] ==>
              o == Retry.Err(if r.status == 429 then OverloadMarker else GenericProviderError)
    ensures o.Err? ==> o.error != []
  {
    if !r.ok then
      if SignalsOverload(r) then Retry.Err(OverloadMarker)
      else Retry.Err(if r.errorMessage == [] then GenericProviderError else r.errorMessage)
    else Retry.Ok(r.text)
  }

  datatype Response =
    | Reply(text: string)
    | BadRequest(error: ValidationError)
    | ApiKeyMissing
    | Unauthorized
    | Overloaded
    | ServerError(message: string)
    | TooManyRequests(retryAfter: int)
    | OpenAIPassThrough

  /** HTTP status of a response; the OpenAI branch answers with the
      provider's own status, which is not modelled. */
  function StatusCode(r: Response): (s: int)
    requires !r.OpenAIPassThrough?
    ensures s in {200, 400, 401, 429, 500, 503}
    ensures s == 200 <==> r.Reply?
    ensures s == 400 <==> r.BadRequest?
    ensures s == 401 <==> r.Unauthorized?
    ensures s == 429 <==> r.TooManyRequests?
    ensures s == 500 <==> r.ApiKeyMissing? || r.ServerError?
    ensures s == 503 <==> r.Overloaded?
  {
    match r
    case Reply(_) => 200
    case BadRequest(_) => 400
    case ApiKeyMissing => 500
    case Unauthorized => 401
    case Overloaded => 503
    case ServerError(_) => 500
    case TooManyRequests(_) => 429
  }

  /** The credential-problem test, on the lower-cased message. Only a
      message of at least seven characters can pass it. */
  function LooksLikeKeyError(e: string): (b: bool)
    ensures b ==> |e| >= 7
  {
    var lower := ToLower(e);
    Contains(lower, "api key") || Contains(lower, "expired") || Contains(lower, "invalid")
  }

  /** A message naming "api key", "expired" or "invalid" in lower case, as
      written, is a credential problem, whatever surrounds the words. */
  lemma KeyWordsAreFound(e: string)
    ensures Contains(e, "api key") || Contains(e, "expired") || Contains(e, "invalid") ==> LooksLikeKeyError(e)
  {
    var lower := ToLower(e);
    ContainsLowered(e, "api key");
    ContainsLowered(e, "expired");
    ContainsLowered(e, "invalid");
    assert LooksLikeKeyError(e) == (Contains(lower, "api key") || Contains(lower, "expired") || Contains(lower, "invalid"));
  }

  /** The test ignores ASCII case: an upper-cased message passes it exactly
      when the message does. */
  lemma KeyErrorIgnoresCase(e: string)
    ensures LooksLikeKeyError(ToUpper(e)) <==> LooksLikeKeyError(e)
  {
    LowerOfUpper(e);
  }

  /** The error left after the retries: exactly the overload marker is a
      retryable 503; otherwise a credential-looking message is a 401 and
      anything else a 500 carrying the message. */
  function ClassifyFailure(e: string): (r: Response)
    ensures r.Overloaded? <==> e == OverloadMarker
    ensures r.Unauthorized? <==> e != OverloadMarker && LooksLikeKeyError(e)
    ensures r.ServerError? <==> e != OverloadMarker && !LooksLikeKeyError(e)
    ensures r.ServerError? ==> r.message == (if e == [] then GenericProviderError else e)
    ensures StatusCode(r) in {503, 401, 500}
  {
    if e == OverloadMarker then Overloaded
    else if LooksLikeKeyError(e) then Unauthorized
    else ServerError(if e == [] then GenericProviderError else e)
  }

  /** The reply sent back: the model's text when it has a non-whitespace
      character, otherwise the mirror fallback for the mirror personality
      and the apology for every other one. Never blank. */
  function FinishReply(text: Option<string>, p: Personality, message: string): (reply: string)
    ensures !AllSpace(reply)
    ensures text.Some? && !AllSpace(text.value) ==> reply == text.value
    ensures (text.None? || AllSpace(text.value)) && p == Mirror ==>
              reply == Mirror.GenerateMirrorFallback(message)
    ensures (text.None? || AllSpace(text.value)) && p != Mirror ==> reply == NoReply
  {
    assert !IsSpace(NoReply[0]);
    if text.None? || text.value == [] || Trim(text.value) == [] then
      if p == Mirror then Mirror.GenerateMirrorFallback(message) else NoReply
    else text.value
  }

  /** Which API keys the environment holds. */
  datatype KeyConfig = KeyConfig(gemini: bool, openai: bool)

  /** What every Gemini call of one request carries: the prompt is built from
      the personality and the user's message (see `PromptText`), followed by
      the generation settings. */
  datatype ProviderRequest = ProviderRequest(personality: Personality, message: string, temperatureTenths: int, maxOutputTokens: int)

  /** The prompt text a request sends. */
  function PromptText(r: ProviderRequest): string {
    ComposePrompt(r.personality, r.message)
  }

  /** A handled request: the response, the request sent to the provider (if
      any), how many calls were made and the waits between them. */
  datatype Exchange = Exchange(response: Response, request: Option<ProviderRequest>, calls: nat, delays: seq<int>)

  function Attempts(provider: nat -> ProviderReply): nat -> Retry.Outcome<Option<string>, string> {
    (i: nat) => Attempt(provider(i))
  }

  /** The provider's first `n` calls all failed. */
  ghost predicate FailedBefore(provider: nat -> ProviderReply, n: int) {
    forall j :: 0 <= j < n ==> !provider(j).ok
  }

  /** The retried call in the provider's own terms: a value comes from the
      first ok call, every earlier call having failed; an error only when all
      three calls failed, and it is the third call's. */
  lemma RunFacts(provider: nat -> ProviderReply)
    ensures var run := Retry.RetryWithBackoff(Attempts(provider), MaxAttempts, BaseDelay);
            && !run.result.NoResult?
            && (run.result.Returned? ==>
                  && FailedBefore(provider, run.calls - 1)
                  && provider(run.calls - 1).ok
                  && run.result.value == provider(run.calls - 1).text)
            && (run.result.Thrown? ==>
                  && run.calls == MaxAttempts
                  && FailedBefore(provider, MaxAttempts)
                  && run.result.error == Attempt(provider(MaxAttempts - 1)).error)
  {
    var att := Attempts(provider);
    var run := Retry.RetryWithBackoff(att, MaxAttempts, BaseDelay);
    if run.result.Returned? {
      forall j | 0 <= j < run.calls - 1 ensures !provider(j).ok {
        assert att(j).Err?;
      }
      assert att(run.calls - 1) == Retry.Ok(run.result.value);
    }
    if run.result.Thrown? {
      forall j | 0 <= j < MaxAttempts ensures !provider(j).ok {
        assert att(j).Err?;
      }
    }
  }

  /** The Gemini branch for a validated request: the retried call and the
      handling of its outcome. */
  function CallGemini(message: string, p: Personality, provider: nat -> ProviderReply): (x: Exchange)
    ensures 1 <= x.calls <= MaxAttempts
    ensures |x.delays| == x.calls - 1
    ensures forall j :: 0 <= j < |x.delays| ==> x.delays[j] == Retry.Delay(BaseDelay, j)
    ensures x.request == Some(ProviderRequest(p, message, TemperatureTenths(p), MaxOutputTokens))
    ensures x.response.Reply? ==> !AllSpace(x.response.text) && provider(x.calls - 1).ok
    ensures x.response.Reply? || x.response.Overloaded? || x.response.Unauthorized? || x.response.ServerError?
    ensures x.response.Reply? ==>
              && FailedBefore(provider, x.calls - 1)
              && x.response.text == FinishReply(provider(x.calls - 1).text, p, message)
    ensures !x.response.Reply? ==>
              && x.calls == MaxAttempts
              && FailedBefore(provider, MaxAttempts)
              && x.response == ClassifyFailure(Attempt(provider(MaxAttempts - 1)).error)
  {
    RunFacts(provider);
    var request := ProviderRequest(p, message, TemperatureTenths(p), MaxOutputTokens);
    var run := Retry.RetryWithBackoff(Attempts(provider), MaxAttempts, BaseDelay);
    var response :=
      match run.result
      case Returned(text) => Reply(FinishReply(text, p, message))
      case Thrown(e) => ClassifyFailure(e)
      case NoResult => assert false; ServerError(GenericProviderError);
    Exchange(response, Some(request), run.calls, run.delays)
  }

  /** An ok call among the three always yields a reply. */
  lemma GeminiAnswerIsUsed(message: string, p: Personality, provider: nat -> ProviderReply, k: nat)
    requires k < MaxAttempts && provider(k).ok
    ensures CallGemini(message, p, provider).response.Reply?
  {
  }

  /** The chat route once the rate limiter let the request through. */
  function HandleChat(body: ChatBody, keys: KeyConfig, provider: nat -> ProviderReply): (x: Exchange)
    ensures x.response.BadRequest? <==> Validate(body).Refused?
    ensures x.response.BadRequest? ==> x.response.error == Validate(body).error
    ensures x.calls > 0 <==> Validate(body).Accepted? && keys.gemini
    ensures x.calls <= MaxAttempts
    ensures x.response.ApiKeyMissing? <==> Validate(body).Accepted? && !keys.gemini && !keys.openai
    ensures x.response.Reply? ==> x.calls > 0 && !AllSpace(x.response.text) && provider(x.calls - 1).ok
    ensures Validate(body).Accepted? && keys.gemini ==>
              x == CallGemini(Validate(body).message, Validate(body).personality, provider)
    ensures x.response.OpenAIPassThrough? <==> Validate(body).Accepted? && !keys.gemini && keys.openai
    ensures x.request.Some? <==> x.calls > 0
    ensures x.request.Some? ==>
              && x.request.value.temperatureTenths == TemperatureTenths(Validate(body).personality)
              && x.request.value.personality == Validate(body).personality
              && x.request.value.message == Validate(body).message
    ensures !x.response.OpenAIPassThrough? ==> StatusCode(x.response) in {200, 400, 401, 500, 503}
    ensures !x.response.TooManyRequests?
  {
    match Validate(body)
    case Refused(e) => Exchange(BadRequest(e), None, 0, [])
    case Accepted(message, p) =>
      if !keys.gemini && !keys.openai then Exchange(ApiKeyMissing, None, 0, [])
      else if !keys.gemini then Exchange(OpenAIPassThrough, None, 0, [])
      else CallGemini(message, p, provider)
  }

  /** A request refused by validation never reaches the provider. */
  lemma RefusedBeforeProvider(body: ChatBody, keys: KeyConfig, provider: nat -> ProviderReply)
    requires Validate(body).Refused?
    ensures HandleChat(body, keys, provider) == Exchange(BadRequest(Validate(body).error), None, 0, [])
  {
  }

  /** With every call failing, no call answers. */
  lemma NoReplyWhenAllFail(message: string, p: Personality, provider: nat -> ProviderReply)
    requires FailedBefore(provider, MaxAttempts)
    ensures !CallGemini(message, p, provider).response.Reply?
  {
  }

  /** The two waits of a full run of the default schedule. */
  lemma PairOfDelays(d: seq<int>)
    requires |d| == 2 && d[0] == Retry.Delay(BaseDelay, 0) && d[1] == Retry.Delay(BaseDelay, 1)
    ensures d == [1000, 2000]
  {
    assert Retry.Pow2(1) == 2;
  }

  /** Three failed calls on the Gemini branch: the third call's error decides
      the response, after waits of 1000 ms and 2000 ms. */
  lemma AllFailCall(message: string, p: Personality, provider: nat -> ProviderReply)
    requires FailedBefore(provider, MaxAttempts)
    ensures var x := CallGemini(message, p, provider);
            && x.calls == 3
            && x.delays == [1000, 2000]
            && x.response == ClassifyFailure(Attempt(provider(2)).error)
  {
    NoReplyWhenAllFail(message, p, provider);
    assert Retry.Pow2(1) == 2;
    PairOfDelays(CallGemini(message, p, provider).delays);
  }

  /** When every attempt fails, the response depends on the last error alone:
      earlier failures of any kind, credential ones included, are retried
      and forgotten. */
  lemma LastErrorDecides(body: ChatBody, keys: KeyConfig, provider: nat -> ProviderReply)
    requires Validate(body).Accepted? && keys.gemini
    requires forall i :: 0 <= i < MaxAttempts ==> !provider(i).ok
    ensures HandleChat(body, keys, provider).calls == MaxAttempts
    ensures HandleChat(body, keys, provider).response
            == ClassifyFailure(Attempt(provider(MaxAttempts - 1)).error)
    ensures HandleChat(body, keys, provider).delays == [1000, 2000]
  {
    var v := Validate(body);
    assert FailedBefore(provider, MaxAttempts);
    AllFailCall(v.message, v.personality, provider);
    assert HandleChat(body, keys, provider) == CallGemini(v.message, v.personality, provider);
  }

  /** Overload on every attempt ends in a retryable 503 after waits of
      1000 ms and 2000 ms. */
  lemma PersistentOverload(body: ChatBody, keys: KeyConfig, provider: nat -> ProviderReply)
    requires Validate(body).Accepted? && keys.gemini
    requires forall i :: 0 <= i < MaxAttempts ==> SignalsOverload(provider(i))
    ensures HandleChat(body, keys, provider).response == Overloaded
    ensures HandleChat(body, keys, provider).calls == 3
    ensures HandleChat(body, keys, provider).delays == [1000, 2000]
  {
    forall i | 0 <= i < MaxAttempts
      ensures !provider(i).ok
    {
      assert SignalsOverload(provider(i));
    }
    assert Attempt(provider(2)).error == OverloadMarker;
    LastErrorDecides(body, keys, provider);
  }

  /** A credential error on the last attempt is reported as a 401 only after
      all three attempts were spent. */
  lemma KeyErrorsAreRetried(body: ChatBody, keys: KeyConfig, provider: nat -> ProviderReply)
    requires Validate(body).Accepted? && keys.gemini
    requires forall i :: 0 <= i < MaxAttempts ==> !provider(i).ok
    requires !SignalsOverload(provider(2)) && provider(2).errorMessage != OverloadMarker
    requires LooksLikeKeyError(provider(2).errorMessage)
    ensures HandleChat(body, keys, provider).response == Unauthorized
    ensures HandleChat(body, keys, provider).calls == 3
  {
    var e := provider(2).errorMessage;
    assert Attempt(provider(2)).error == e;
    assert ClassifyFailure(e) == Unauthorized;
    LastErrorDecides(body, keys, provider);
  }

  /** The first ok answer among the three calls is used at once: call k
      answers after k failures and k waits, and no further call is made. */
  lemma FirstAnswerUsed(body: ChatBody, keys: KeyConfig, provider: nat -> ProviderReply, k: nat)
    requires Validate(body).Accepted? && keys.gemini
    requires k < MaxAttempts && provider(k).ok
    requires forall j :: 0 <= j < k ==> !provider(j).ok
    ensures HandleChat(body, keys, provider).calls == k + 1
    ensures |HandleChat(body, keys, provider).delays| == k
    ensures HandleChat(body, keys, provider).response
            == Reply(FinishReply(provider(k).text, Validate(body).personality, Validate(body).message))
  {
    var att := Attempts(provider);
    assert Retry.FailedBetween(att, 0, k) by {
      forall j | 0 <= j < k ensures att(j).Err? {
        assert !provider(j).ok;
      }
    }
    Retry.ReturnsFirstSuccess(att, MaxAttempts, BaseDelay, k);
  }

  /** A blank first answer for the mirror personality is replaced by the
      mirror fallback of the user's message; no further call is made. */
  lemma BlankMirrorAnswerFallsBack(body: ChatBody, keys: KeyConfig, provider: nat -> ProviderReply)
    requires Validate(body).Accepted? && Validate(body).personality == Mirror && keys.gemini
    requires provider(0).ok && (provider(0).text.None? || AllSpace(provider(0).text.value))
    ensures HandleChat(body, keys, provider).response == Reply(Mirror.GenerateMirrorFallback(Validate(body).message))
    ensures HandleChat(body, keys, provider).calls == 1
  {
    var v := Validate(body);
    Retry.ReturnsFirstSuccess(Attempts(provider), MaxAttempts, BaseDelay, 0);
    assert FinishReply(provider(0).text, v.personality, v.message) == Mirror.GenerateMirrorFallback(v.message);
  }

  lemma ThirdAttemptRun(provider: nat -> ProviderReply)
    requires !provider(0).ok && !provider(1).ok && provider(2).ok
    ensures Retry.RetryWithBackoff(Attempts(provider), MaxAttempts, BaseDelay)
            == Retry.Run(Retry.Returned(provider(2).text), 3, [1000, 2000])
  {
    var att := Attempts(provider);
    assert att(0).Err? && att(1).Err? && att(2) == Retry.Ok(provider(2).text);
    assert Retry.FailedBetween(att, 0, 2);
    Retry.ReturnsFirstSuccess(att, MaxAttempts, BaseDelay, 2);
    Retry.DefaultSchedule(att);
  }

  /** Two failures then an ok answer: the answer is used after waits of
      1000 ms and 2000 ms. */
  lemma RecoversOnThirdAttempt(body: ChatBody, keys: KeyConfig, provider: nat -> ProviderReply)
    requires Validate(body).Accepted? && keys.gemini
    requires !provider(0).ok && !provider(1).ok && provider(2).ok
    ensures HandleChat(body, keys, provider).calls == 3
    ensures HandleChat(body, keys, provider).delays == [1000, 2000]
    ensures HandleChat(body, keys, provider).response
            == Reply(FinishReply(provider(2).text, Validate(body).personality, Validate(body).message))
  {
    ThirdAttemptRun(provider);
  }

  /** A request as the server sees it: first the rate limiter, then the route. */
  datatype Served = Served(response: Response, table: RateLimiter.Table, calls: nat)

  function Serve(table: RateLimiter.Table, ip: string, now: int, body: ChatBody,
                 keys: KeyConfig, provider: nat -> ProviderReply): (s: Served)
    ensures s.table == RateLimiter.Admit(table, ip, now).table
    ensures s.response.TooManyRequests? <==> RateLimiter.Admit(table, ip, now).decision.Rejected?
    ensures s.response.TooManyRequests? ==>
              && s.calls == 0
              && s.response.retryAfter == RateLimiter.Admit(table, ip, now).decision.retryAfter
    ensures !s.response.TooManyRequests? ==>
              s.response == HandleChat(body, keys, provider).response
              && s.calls == HandleChat(body, keys, provider).calls
  {
    var a := RateLimiter.Admit(table, ip, now);
    match a.decision
    case Rejected(retryAfter) => Served(TooManyRequests(retryAfter), a.table, 0)
    case Allowed =>
      var x := HandleChat(body, keys, provider);
      Served(x.response, a.table, x.calls)
  }

  /** Admission comes before validation: a request over the limit is
      answered 429 even when its body is invalid, and costs no provider call. */
  lemma RateLimitBeforeValidation(table: RateLimiter.Table, ip: string, now: int, body: ChatBody,
                                  keys: KeyConfig, provider: nat -> ProviderReply)
    requires ip in table && now <= table[ip].resetTime && table[ip].count >= RateLimiter.MaxRequests
    ensures Serve(table, ip, now, body, keys, provider).response.TooManyRequests?
    ensures Serve(table, ip, now, body, keys, provider).calls == 0
    ensures Serve(table, ip, now, body, keys, provider).table == table
  {
  }
}
