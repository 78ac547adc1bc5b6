# Chatbot API gateway — a Dafny model of its decision logic

The chatbot API server is a small Express service. It forwards a user's chat
message to the Gemini model under one of seven personalities. This project
models every decision the service takes on its way. Each piece is a pure
function, and the lemmas prove the properties the code promises:

- **Rate limiter** (`rate_limiter.dfy`, module `RateLimiter`). A per-address
  fixed-window limiter: 30 requests per 60-second window. `Admit` is the
  middleware step that creates, resets or increments an address's record, or
  answers 429 with a `retryAfter` in whole seconds. `Sweep` is the
  five-minute cleanup of idle records.
- **Retry** (`retry.dfy`, module `Retry`). The `retryWithBackoff` helper. It
  makes up to `maxRetries` calls and, after a failed call `i` that is not
  the last, waits `baseDelay * 2^i`. The first success is returned and the
  last error is rethrown. The waits are returned as a list.
- **Personalities** (`personality.dfy`, module `Personality`). The catalogue
  of seven keys and the system prompt each selects. Also the sampling
  temperature (in tenths) and the prompt text sent to the model.
- **Mirror fallback** (`mirror.dfy`, module `Mirror`). `generateMirrorFallback`
  builds the local reply used for the "mirror" personality when the model
  answers with nothing, in the code's order:
  1. whole-word, case-insensitive replacement of seven insults by "there";
  2. trimming of short text;
  3. upper-casing when more than 60% of the message's letters are capitals;
  4. amplified exclamation marks;
  5. the "Hey there." greeting when the result would be blank.
- **Chat route** (`gateway.dfy`, module `Gateway`). The `/api/chat` handler
  on its Gemini branch:
  - the validation cascade and personality resolution;
  - how one provider call fails (the `API_OVERLOAD` marker, or the
    provider's message);
  - the three-attempt retry;
  - the mapping of the error left at the end to 503, 401 or 500;
  - the post-processing of the reply.

  `Serve` puts the rate limiter in front of the route.
- **JavaScript string helpers** (`text.dfy`, module `Text`). `trim` with
  JavaScript's exact whitespace set, ASCII case mapping, `includes`,
  character counting and UTF-16 length.
- **Worked examples** (`scenarios.dfy`, module `Scenarios`). Concrete
  worked examples proved as lemmas.

Two things outside the process become parameters. The clock is the
millisecond integer `now`. The Gemini API is a function from the call
number to the answer that call receives: (ok, HTTP status, error message,
reply text). Waits are returned instead of slept.

## Model

| member | source | states |
|---|---|---|
| RateLimiter.Admit | server.js:55-82 | The request is allowed iff the address has no record, its window has ended, or it has fewer than 30 requests. A first or post-window request gets `{count 1, resetTime now+60000}`; an in-window request increments the count and keeps the window end. A rejection leaves the table unchanged and its `retryAfter` is the ceiling of the remaining milliseconds over 1000. Other addresses' records are untouched, counts stay within 1..30, and under a clock that never went backwards `retryAfter` lies in 0..60 |
| RateLimiter.CeilSeconds | server.js:76 | `Math.ceil(x/1000)`: the least q with x <= 1000q |
| RateLimiter.Sweep | server.js:85-92 | A record is kept iff `now <= resetTime + 60000`; kept records are unchanged and stay well-formed |
| RateLimiter.SweepIsInvisible | server.js:59-92 | A sweep at any earlier time changes neither the next admission's decision nor the record it leaves for that address |
| RateLimiter.SweepEvictsIdle | server.js:87-90 | A table last used at `last` is emptied by a sweep more than two windows later |
| RateLimiter.WithinWindow | server.js:64-80 | Inside one window, requests are admitted until the count reaches 30 and rejected afterwards; the window end does not move |
| RateLimiter.WindowCeiling | server.js:59-80 | From an address's first request, at most 30 requests are admitted until its window closes |
| RateLimiter.ClockKept | server.js:59-80 | Requests for one address at times that never go backwards, starting from a table whose windows all end within 60 s of the first time, leave every window ending within 60 s of the latest request; this is the premise under which a rejection's `retryAfter` lies in 0..60 |
| Retry.RetryFrom | server.js:178-188 | From attempt i on: every call before the last one made failed, a value comes only from the last call made, and a throw happens only after call maxRetries failed, with that call's error. Delay j is `baseDelay * 2^(i+j)` |
| Retry.RetryWithBackoff | server.js:177-189 | Nothing is called or returned iff maxRetries <= 0. Otherwise the helper returns the value of a call preceded only by failures, or throws the last error after all maxRetries calls fail, having waited `baseDelay * 2^j` after each failed call j but the last |
| Retry.ReturnsFirstSuccess | server.js:178-181 | If call k is the first success within the limit, its value is returned after exactly k+1 calls and k waits |
| Retry.RethrowsLastError | server.js:181-182 | If every call fails, the last call's error is rethrown unchanged after maxRetries calls |
| Retry.DefaultSchedule | server.js:184-186 | With 3 attempts and 1000 ms, two failures give waits of 1000 ms and 2000 ms before the third call |
| Personality.Parse | server.js:118-132 | A name resolves to a personality iff it is one of the seven catalogue keys |
| Personality.ParseKeyRoundTrip | server.js:118-132 | Every personality resolves from its own key and from no other name |
| Personality.KeysAreTheCatalogue | server.js:211 | The key list reported to a refused request holds the seven distinct keys, each resolving back to itself |
| Personality.TemperatureTenths | server.js:227-229 | Temperature is 1.2 iff energetic, 0.3 iff professional, 1.0 iff sarcastic, and 0.9 for the other four |
| Personality.ComposePrompt | server.js:246 | The prompt is the personality's system prompt, then exactly the 16 characters "\n\nUser message: ", then the user's message |
| Personality.PromptIsReadBack | server.js:246 | Two equal prompts whose system prompts have the same length come from the same system prompt and the same message: the message is recovered whole |
| Text.Trim | server.js:162-163 | `trim()` yields a result that is empty exactly when the input is all whitespace, and otherwise starts and ends with a non-whitespace character |
| Text.TrimSlice | server.js:162-163 | The trimmed text is a contiguous slice of the input with only whitespace cut off on either side |
| Text.Utf16Len | server.js:204 | `length` counts UTF-16 units: between one and two per character, exactly one each when all are in the Basic Multilingual Plane |
| Text.Utf16LenAppend | server.js:204 | The UTF-16 length of two joined texts is the sum of their lengths |
| Text.Utf16LenChar | server.js:204 | One character counts one unit below U+10000 and two (a surrogate pair) from U+10000 on |
| Text.ToUpper | server.js:166 | `toUpperCase()` keeps the length and maps every character on its own: an ASCII lower-case letter becomes its capital, everything else is kept |
| Text.ToLower | server.js:283 | `toLowerCase()` keeps the length and maps every character on its own: an ASCII capital becomes its lower-case letter, everything else is kept |
| Text.LowerOfUpper | server.js:283 | Lower-casing an upper-cased text gives the lower-cased text: upper-casing loses nothing that lower-casing keeps |
| Text.Contains | server.js:262 | `includes` holds only when the needle is no longer than the text, and always for a prefix of the text |
| Text.ContainsInContext | server.js:284 | A needle included in a text is still included whatever text is put before and after it |
| Text.ContainsLowered | server.js:283-284 | A needle without capitals included in a message is still included once the message is lower-cased |
| Text.Count | server.js:156 | `match(/!/g).length` is at most the text's length, zero exactly when the character is absent, and the whole length exactly when every character is that one |
| Text.CountAppend | server.js:156 | Counting over two joined texts gives the sum of the two counts |
| Text.Repeat | server.js:168 | `'!'.repeat(n)` has length n and every character is the repeated one |
| Mirror.ReplaceNextMatch | server.js:143-148 | Replacing copies the text up to the next whole-word case-insensitive match, turns the match into "there", and resumes right after it |
| Mirror.ReplaceWithoutMatch | server.js:143-148 | Text without a whole-word match is copied unchanged |
| Mirror.ReplaceKeepsSeparators | server.js:146 | Replacing keeps every non-word character (spaces, punctuation) in order |
| Mirror.SanitizeWithoutInsult | server.js:137-148 | A message in which none of the seven insults occurs as a whole word is left verbatim |
| Mirror.Sanitize | server.js:137-148 | The sanitised text is blank iff the message is, has exactly the message's exclamation marks, and keeps a lower-case letter when the message has one |
| Mirror.Letters | server.js:151 | Stripping non-letters leaves ASCII letters only |
| Mirror.UpperCount | server.js:152 | `match(/[A-Z]/g).length` is at most the text's length, and the whole length exactly when every character is a capital |
| Mirror.LettersKeepCount | server.js:151 | Every letter keeps its number of occurrences and every other character disappears |
| Mirror.NoCapitals | server.js:152 | The capital count is zero iff the text has no capital |
| Mirror.CapitalsAreLetters | server.js:151-152 | Counting capitals among the letters gives the capitals of the whole message |
| Mirror.MostlyUpper | server.js:151-153 | A message counts as shouting only if it has a capital, so never when it is blank |
| Mirror.Bangs | server.js:156-157 | No marks are added iff the message has none; one mark gives two; more give three |
| Mirror.Base | server.js:160-164 | The reply body has the sanitised text's trimmed form and blankness; it is already trimmed when that trimmed form has at most 30 UTF-16 units, and is the untrimmed text otherwise |
| Mirror.Finalize | server.js:171 | The result is never blank: a non-blank reply is kept and a blank one becomes "Hey there." |
| Mirror.GenerateMirrorFallback | server.js:170-173 | The fallback reply always has a non-whitespace character |
| Mirror.NonBlankIsShaped | server.js:160-173 | A non-blank message gets the shaped text (trimmed if short, cased, bangs appended), never the greeting |
| Mirror.BlankGetsGreeting | server.js:160-171 | An empty or all-whitespace message gets exactly "Hey there." |
| Mirror.ShapeExclamations | server.js:156-168 | Trimming and upper-casing keep every "!", and the appended marks end the text |
| Mirror.ExclamationsAmplified | server.js:156-168 | With n > 0 marks in the message, the reply keeps all n and ends with exactly min(n+1, 3) more |
| Mirror.NoExclamationsAdded | server.js:156-171 | A message without "!" gets a reply without "!" |
| Mirror.ShoutingIsMirrored | server.js:150-166 | When more than 60% of the message's ASCII letters are capitals, the reply has no lower-case letter |
| Mirror.QuietIsKept | server.js:150-166 | When at most 60% are capitals (or there are no letters) and the message has a lower-case letter, so does the reply: it is not upper-cased |
| Mirror.ShapeOfShort | server.js:160-168 | For a non-blank sanitised text whose trimmed form has at most 30 UTF-16 units, the shaped reply is that trimmed form, upper-cased if the message shouted, followed by the bangs, and starts with a non-whitespace character |
| Mirror.ShortRepliesTrimmed | server.js:160-168 | For a non-blank message: if the trimmed sanitised text is at most 30 UTF-16 units, the reply is exactly that trimmed text, cased as the message, plus the bangs, and starts with a non-whitespace character; otherwise it is the whole sanitised text, cased, plus the bangs |
| Gateway.ResolvePersonality | server.js:193-208 | A missing personality means "friendly"; a string resolves iff it is a catalogue key, and then to the personality whose key it is; any other JSON value is invalid |
| Gateway.Truthy | server.js:196 | `!message` holds exactly for a missing field, `null`, `false`, `0` and the empty string; every other JSON value, including an empty array or object, is truthy |
| Gateway.ErrorTextTellsApart | server.js:196-212 | The four 400 texts ("Message is required", "Message must be a non-empty string", "Message too long. Maximum 2000 characters.", "Invalid personality") are pairwise distinct, so the text alone names the refusal |
| Gateway.StatusCode | server.js:74-308 | Every answer the gateway builds itself has one of the statuses 200, 400, 401, 429, 500, 503, each tied to its outcome both ways: 200 exactly for a reply, 400 for a validation refusal, 401 for a credential error, 429 for a rate-limit refusal, 503 for an overload, and 500 exactly for a missing key or an unclassified provider error |
| Gateway.Validate | server.js:193-213 | The cascade in order: a falsy message is "required"; then a non-string or blank message is "non-empty string"; then more than 2000 UTF-16 units is "too long"; then an unknown personality is refused with the seven keys. Anything else is accepted with the message and its personality. Each outcome is stated as an iff |
| Gateway.SignalsOverload | server.js:262 | Only a failed call can signal overload; status 429 always does; and with an empty error message it does exactly when the status is 429 |
| Gateway.Attempt | server.js:260-267 | A failed call signals `API_OVERLOAD` when the status is 429 or the message mentions "overloaded" or "quota"; otherwise it throws the message, or "Gemini API error" when the message is empty. With an empty message, a failure is `API_OVERLOAD` exactly when the status is 429. A thrown error is never empty, and a successful call yields its reply text |
| Gateway.LooksLikeKeyError | server.js:283-284 | Only a message of at least seven characters can count as a credential problem |
| Gateway.KeyWordsAreFound | server.js:283-284 | A message containing "api key", "expired" or "invalid" as written counts as a credential problem, whatever surrounds it |
| Gateway.KeyErrorIgnoresCase | server.js:283 | Upper-casing a message does not change whether it counts as a credential problem |
| Gateway.ClassifyFailure | server.js:274-293 | 503 iff the error is exactly `API_OVERLOAD`; otherwise 401 iff the lower-cased error contains "api key", "expired" or "invalid"; otherwise 500 with the error text |
| Gateway.FinishReply | server.js:296-306 | A non-blank reply is returned verbatim; a missing or blank one becomes the mirror fallback for "mirror" and the apology text for the other personalities; the result is never blank |
| Gateway.CallGemini | server.js:233-308 | One to three calls with the 1000/2000 ms schedule, and a request carrying the personality and message the prompt is built from, the temperature and the 1024-token cap. A reply comes from the last call made, which succeeded after every earlier call failed, and is that call's answer post-processed, never blank. Any other response means all three calls were made and failed, and it is the 503/401/500 classification of the third call's error |
| Gateway.GeminiAnswerIsUsed | server.js:178-181 | If any of the first three calls succeeds, the branch answers with a reply |
| Gateway.HandleChat | server.js:193-308 | A 400 exactly when validation refuses, with that error. The provider is called exactly when the request is valid and a Gemini key exists. A 500 "key not configured" exactly when neither key exists. A reply is non-blank and comes from a successful call. With a Gemini key a valid request gets exactly the Gemini branch's exchange; the OpenAI pass-through happens exactly when the request is valid and only the OpenAI key exists. A request sent carries the validated personality and message |
| Gateway.RefusedBeforeProvider | server.js:196-213 | A refused request makes no provider call and sends no request |
| Gateway.LastErrorDecides | server.js:272-293 | When all three calls fail, there are exactly three calls, waits of 1000 and 2000 ms, and the third call's error alone decides the status |
| Gateway.PersistentOverload | server.js:262-279 | Overload on all three calls gives the retryable 503 after three calls |
| Gateway.KeyErrorsAreRetried | server.js:282-289 | A credential error is retried like any other and is reported as 401 only after the third call |
| Gateway.FirstAnswerUsed | server.js:273-308 | If call k (k < 3) is the first successful call, the retries end there: k+1 calls, k waits, and the reply is call k's answer post-processed |
| Gateway.BlankMirrorAnswerFallsBack | server.js:298-302 | A blank first answer under "mirror" becomes the mirror fallback of the user's message |
| Gateway.RecoversOnThirdAttempt | server.js:273 | Two failures followed by a success give the third answer after waits of 1000 and 2000 ms |
| Gateway.Serve | server.js:55-82 | The limiter runs before the route: a 429 exactly when admission rejects, with its `retryAfter` and no provider call; otherwise the route's answer. The table is the admission's |
| Gateway.RateLimitBeforeValidation | server.js:73-78 | An address over its limit gets 429 even for an invalid body, and the table is unchanged |
| Scenarios.HelloIsAnsweredAsFriendly | server.js:193-308 | "Hello" without a personality is sent as "friendly" at temperature 0.9, and an answer "Hi!" is returned as it is after one call |
| Scenarios.OverlongMessageRefused | server.js:204-206 | A non-blank message of more than 2000 characters (none outside the Basic Multilingual Plane) is refused as too long, with no call |
| Scenarios.KeyErrorIsUnauthorized | server.js:283-289 | An error beginning "API key" is a 401 |
| Scenarios.InvalidArgumentIsUnauthorized | server.js:283-289 | Any error beginning "Invalid", whatever it is about, is also a 401: the test is a substring match |
| Scenarios.LoudInsultIsNotShouting | server.js:150-168 | "you are so STUPID!!!" has 6 capitals among 14 letters, so it does not count as shouting: its reply keeps a lower-case letter, has six exclamation marks and ends with "!!!" |

## Left out

- Express plumbing is not modelled: app setup, CORS, the JSON body parser, logging, the health and 404 routes, the global error handler, `listen`, and signal handling. None of it takes a decision about a chat request.
- The `fetch` calls and JSON decoding are not modelled. A provider answer is an (ok, status, error message, reply text) record. A reply text that is present but not a string (possible only for a malformed provider payload) is not represented.
- The OpenAI branch is a pass-through (`OpenAIPassThrough`). It makes one call without retries and relays the provider's own status and text, neither of which is modelled.
- Timers are not modelled: `setTimeout` becomes the returned list of waits, and the `setInterval` sweep is a function the caller invokes with `now`. The 300000 ms sweep period is recorded as a constant only.
- The route's outer catch is not modelled: the 504 on an aborted request, the 503 on a message containing "fetch", and the masking of messages in production. They serve exceptions raised outside the Gemini retry, none of which is part of the model: an error thrown before validation when the request has no body, a network failure on the OpenAI branch, or a Gemini reply text that is not a string. On the Gemini branch a rejection from `fetch` or `response.json()` never reaches the outer catch: `retryWithBackoff` retries it (server.js:178-186) and the inner catch classifies it as 401 or 500 (server.js:274-293). Such a rejection cannot be written as a provider answer record, so the model covers only the failures that record can express: a status and an error message.
- Floating point is avoided. Temperatures are integer tenths. The 60% test is `5 * capitals > 3 * letters`, which is exact: the ratio `capitals/letters` of two integers of at most a few thousand is compared with 0.6 without rounding surprises.
- Powers of two are exact integers in the model. `Math.pow(2, i)` is exact for the attempt counts that occur, so nothing is lost.
- Case mapping is ASCII only. This matches what the `i` regex flag compares and what the letter-ratio patterns count, but it is weaker than JavaScript's `toUpperCase` and `toLowerCase`, which also map non-ASCII letters. Mirror.ShoutingIsMirrored therefore speaks of ASCII lower-case letters only. Gateway.ClassifyFailure's substring test likewise folds only ASCII capitals.
- Lone UTF-16 surrogates cannot occur in a Dafny string. `Utf16Len` counts each character above U+FFFF as two units, as JavaScript's `length` does.
- Personality lookup treats the catalogue as its seven keys. JavaScript would also accept an inherited property name such as "constructor", or a one-element array holding a key, because property lookup goes through the prototype chain and coerces the key to a string. Those quirks are not modelled: any non-string personality is refused.
- Personality.SystemPrompt: carries no contract. The seven prompt texts are copied character for character from server.js:118-132, but facts about texts this long do not fit the verifier's per-proof budget, so nothing about their contents is proved.
- The request body is recorded by what it is built from: the personality, the message, the temperature and the token cap. Its prompt text is `Gateway.PromptText`, which is Personality.ComposePrompt of the two. The JSON layout of the body, the URL and the key in its query string are not modelled.
- Gateway.LooksLikeKeyError: only one direction is proved about the needles. A message holding one of them in lower case passes (`Gateway.KeyWordsAreFound`). That a passing message holds a needle in some capitalisation is not stated.
- Gateway.Attempt: the error message is modelled as a string. An error object whose `message` is not a string is not represented.
- Mirror.Sanitize: the model proves that replacement rewrites exactly the whole-word matches and copies everything else. It does not state that the result is free of whole-word insults. That holds because "there" is a whole word and is not an insult, but it is not proved here.

## Notes

- A message such as "you are so STUPID!!!" reads as shouting, but the code does not upper-case the reply to it. Only 6 of its 14 letters are capitals, a ratio of about 0.43, and the test at `server.js:166` needs more than 0.6. The model follows the code, and `Scenarios.LoudInsultIsNotShouting` proves the ratio.
- Failed calls are retried whatever the error, credential errors included. Only the last error's text decides the status (`Gateway.KeyErrorsAreRetried`). This is modelled as written.
- When `maxRetries` is zero or negative, the JavaScript helper returns `undefined` without calling anything. This is the `NoResult` case of `Retry.RetryWithBackoff`. The route always passes 3, so it never reaches this case.
