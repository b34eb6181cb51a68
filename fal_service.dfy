/**
 * The Fal.ai request/response adapter of services/falService.ts.
 *
 * The network call is abstracted: the HTTP response the endpoint returns is passed in as a
 * value of the closed datatype Response, and reading the user's file is abstracted as the
 * already-encoded image string. What remains is deterministic: how the request body is shaped,
 * how a failed response becomes an error message, how the API key is redacted from it, how a
 * successful response yields the image URL, and how each operation words its prompt.
 */
module FalService {
  import opened Wrappers
  import opened Strings

  // ---------------------------------------------------------------------------------------
  // Request body
  // ---------------------------------------------------------------------------------------

  /**
   * The JSON object sent to the endpoint. `imageUrl` and `imageUrls` stand for the keys
   * `image_url` and `image_urls`; `None` means the key is absent from the object.
   */
  datatype RequestBody = RequestBody(
    imageUrl: Option<string>,
    imageUrls: Option<seq<string>>,
    prompt: string,
    outputFormat: string,
    enableSafetyChecker: bool,
    acceleration: string,
    syncMode: bool,
    numImages: nat,
    imageSize: string)

  /** The prefix that marks an inline (data URI) image. */
  const DATA_URI_SCHEME := "data:"

  /** The body of one request: the image goes under one of two keys, the rest is fixed. */
  function BuildRequestBody(imageData: string, prompt: string): (b: RequestBody)
    ensures b.imageUrl.Some? <==> StartsWith(imageData, DATA_URI_SCHEME)
    ensures b.imageUrl.Some? != b.imageUrls.Some?
    ensures b.imageUrl.Some? ==> b.imageUrl.value == imageData
    ensures b.imageUrls.Some? ==> b.imageUrls.value == [imageData]
    ensures b.prompt == prompt
  {
    var isBase64 := StartsWith(imageData, DATA_URI_SCHEME);
    RequestBody(
      imageUrl := if isBase64 then Some(imageData) else None,
      imageUrls := if isBase64 then None else Some([imageData]),
      prompt := prompt,
      outputFormat := "png",
      enableSafetyChecker := false,
      acceleration := "regular",
      syncMode := true,
      numImages := 1,
      imageSize := "square_hd")
  }

  /** The generation settings of every request carry the same constants. */
  lemma FixedGenerationParameters(imageData: string, prompt: string)
    ensures var b := BuildRequestBody(imageData, prompt);
      && b.outputFormat == "png"
      && !b.enableSafetyChecker
      && b.acceleration == "regular"
      && b.syncMode
      && b.numImages == 1
      && b.imageSize == "square_hd"
  {
  }

  /** Two requests differ at most in their image and their prompt. */
  lemma SettingsIndependentOfInput(imageData: string, prompt: string, imageData': string, prompt': string)
    ensures BuildRequestBody(imageData, prompt).(imageUrl := None, imageUrls := None, prompt := "")
         == BuildRequestBody(imageData', prompt').(imageUrl := None, imageUrls := None, prompt := "")
  {
  }

  // ---------------------------------------------------------------------------------------
  // Response
  // ---------------------------------------------------------------------------------------

  /** What reading the response body produces. */
  datatype ResponseBody =
      /** `response.json()` gives an object; `error` and `detail` are its string fields, if any. */
    | JsonBody(error: Option<string>, detail: Option<string>)
      /** `response.json()` throws; `text` is what `response.text()` gives, `None` if it throws too. */
    | JsonFails(text: Option<string>)
      /** `response.json()` gives an object with an `images` array; each entry is that image's `url`. */
    | SuccessJson(images: seq<Option<string>>)

  /** An HTTP response of the endpoint. */
  datatype Response = Response(status: nat, body: ResponseBody) {
    /** `response.ok`: the status is in the range 200 to 299. */
    predicate Ok()
    {
      200 <= status <= 299
    }
  }

  /** JavaScript truthiness of an optional string: present and not empty. */
  predicate Truthy(o: Option<string>)
  {
    o.Some? && o.value != ""
  }

  // ---------------------------------------------------------------------------------------
  // Error message of a failed request
  // ---------------------------------------------------------------------------------------

  const REQUEST_FAILED := "Fal.ai API request failed with status "

  /** The first part of every error message of a failed request. */
  function StatusPrefix(status: nat): string
  {
    REQUEST_FAILED + NatToString(status)
  }

  /** What the body of a failed response adds to the message: `error`, else `detail`, else text. */
  function ErrorSuffix(body: ResponseBody): string
  {
    match body
    case JsonBody(error, detail) =>
      if Truthy(error) then ": " + error.value
      else if Truthy(detail) then ": " + detail.value
      else ""
    case SuccessJson(_) => ""
    case JsonFails(text) => if Truthy(text) then ": " + text.value else ""
  }

  /** The error message of a failed response, before redaction. */
  function FailureMessage(response: Response): (m: string)
    ensures StartsWith(m, StatusPrefix(response.status))
  {
    StatusPrefix(response.status) + ErrorSuffix(response.body)
  }

  /** A truthy `error` is appended, whatever `detail` holds. */
  lemma ErrorFieldFirst(status: nat, error: Option<string>, detail: Option<string>)
    requires Truthy(error)
    ensures FailureMessage(Response(status, JsonBody(error, detail))) == StatusPrefix(status) + ": " + error.value
  {
  }

  /** Without a truthy `error`, a truthy `detail` is appended. */
  lemma DetailFieldSecond(status: nat, error: Option<string>, detail: Option<string>)
    requires !Truthy(error) && Truthy(detail)
    ensures FailureMessage(Response(status, JsonBody(error, detail))) == StatusPrefix(status) + ": " + detail.value
  {
  }

  /** A JSON body with neither field truthy adds nothing. */
  lemma NeitherFieldAddsNothing(status: nat, error: Option<string>, detail: Option<string>)
    requires !Truthy(error) && !Truthy(detail)
    ensures FailureMessage(Response(status, JsonBody(error, detail))) == StatusPrefix(status)
  {
  }

  /**
   * A body that is not JSON adds its text when that text is not empty; when the text is empty
   * or cannot be read, the message is exactly the status prefix.
   */
  lemma TextFallback(status: nat, text: Option<string>)
    ensures Truthy(text) ==> FailureMessage(Response(status, JsonFails(text))) == StatusPrefix(status) + ": " + text.value
    ensures !Truthy(text) ==> FailureMessage(Response(status, JsonFails(text))) == StatusPrefix(status)
  {
  }

  /** The number of decimal digits at the start of a string. */
  function LeadingDigits(s: string): nat
  {
    if |s| > 0 && IsDigit(s[0]) then 1 + LeadingDigits(s[1..]) else 0
  }

  /** Digits followed by nothing or by a non-digit: the digit run is exactly the leading digits. */
  lemma {:induction false} LeadingDigitsOfNumeral(a: string, b: string)
    requires forall k :: 0 <= k < |a| ==> IsDigit(a[k])
    requires |b| > 0 ==> !IsDigit(b[0])
    ensures LeadingDigits(a + b) == |a|
  {
    if |a| > 0 {
      assert (a + b)[0] == a[0];
      assert (a + b)[1..] == a[1..] + b;
      LeadingDigitsOfNumeral(a[1..], b);
    } else {
      assert a + b == b;
    }
  }

  /** After the fixed wording, the leading digits of a failure message are the status numeral. */
  lemma StatusDigits(r: Response)
    ensures var t := FailureMessage(r)[|REQUEST_FAILED|..];
      LeadingDigits(t) <= |t| && t[..LeadingDigits(t)] == NatToString(r.status)
  {
    var a, b := NatToString(r.status), ErrorSuffix(r.body);
    assert FailureMessage(r) == REQUEST_FAILED + (a + b);
    assert FailureMessage(r)[|REQUEST_FAILED|..] == a + b;
    LeadingDigitsOfNumeral(a, b);
    assert (a + b)[..|a|] == a;
  }

  /** The status code can be read back from any error message built for it. */
  lemma {:induction false} FailureMessageDeterminesStatus(r: Response, r': Response)
    requires FailureMessage(r) == FailureMessage(r')
    ensures r.status == r'.status
  {
    StatusDigits(r);
    StatusDigits(r');
    NatToStringInjective(r.status, r'.status);
  }

  // ---------------------------------------------------------------------------------------
  // Redaction of the API key
  // ---------------------------------------------------------------------------------------

  const REDACTED := "[REDACTED]"

  /** `message.replace(apiKey, '[REDACTED]')`: only the leftmost occurrence of the key is replaced. */
  function Redact(message: string, apiKey: string): string
  {
    ReplaceFirst(message, apiKey, REDACTED)
  }

  /** The redacted message, character by character, around the leftmost occurrence at `i`. */
  lemma RedactAt(m: string, k: string, i: nat)
    requires IndexOf(m, k) == Some(i)
    ensures |Redact(m, k)| == |m| - |k| + |REDACTED|
    ensures forall x :: 0 <= x < i ==> Redact(m, k)[x] == m[x]
    ensures forall x :: i <= x < i + |REDACTED| ==> Redact(m, k)[x] == REDACTED[x - i]
    ensures forall x :: i + |REDACTED| <= x < |Redact(m, k)| ==> Redact(m, k)[x] == m[x - |REDACTED| + |k|]
  {
  }

  /** The key occurs at two places that do not overlap. */
  predicate TwoDisjointOccurrences(m: string, k: string)
  {
    exists i: nat, j: nat | i <= |m| && j <= |m| :: OccursAt(m, k, i) && OccursAt(m, k, j) && i + |k| <= j
  }

  /** The key shares no character with the placeholder. */
  predicate DisjointFromPlaceholder(k: string)
  {
    forall a, b :: 0 <= a < |k| && 0 <= b < |REDACTED| ==> k[a] != REDACTED[b]
  }

  /** A message without the key is left unchanged. */
  lemma RedactWithoutKey(m: string, k: string)
    ensures !Contains(m, k) ==> Redact(m, k) == m
  {
  }

  /** An occurrence after the replaced one, not overlapping it, reappears shifted in the redacted message. */
  lemma {:induction false} OccurrenceAfterReplaced(m: string, k: string, l: nat, j: nat)
    requires IndexOf(m, k) == Some(l)
    requires OccursAt(m, k, j) && l + |k| <= j
    ensures OccursAt(Redact(m, k), k, j - |k| + |REDACTED|)
  {
    var r := Redact(m, k);
    RedactAt(m, k, l);
    var x: nat := j - |k| + |REDACTED|;
    OccursAtPointwise(m, k, j);
    forall t | 0 <= t < |k| ensures r[x + t] == k[t] {
      assert r[x + t] == m[j + t];
    }
    OccursAtPointwise(r, k, x);
  }

  /** An occurrence of the key after the leftmost one, and not overlapping it, survives redaction. */
  lemma {:induction false} RedactKeepsLaterOccurrence(m: string, k: string)
    requires TwoDisjointOccurrences(m, k)
    ensures Contains(Redact(m, k), k)
  {
    var i: nat, j: nat :| i <= |m| && j <= |m| && OccursAt(m, k, i) && OccursAt(m, k, j) && i + |k| <= j;
    assert Contains(m, k);
    var l :| IndexOf(m, k) == Some(l);
    OccurrenceAfterReplaced(m, k, l, j);
    assert OccursAt(Redact(m, k), k, j - |k| + |REDACTED|);
  }

  /** An occurrence ending before the replaced one is an occurrence in the original message. */
  lemma OccurrenceBeforeReplaced(m: string, k: string, l: nat, x: nat)
    requires IndexOf(m, k) == Some(l)
    ensures OccursAt(Redact(m, k), k, x) && x + |k| <= l ==> OccursAt(m, k, x)
  {
  }

  /** An occurrence overlapping the placeholder shares a character with it. */
  lemma {:induction false} OccurrenceAcrossPlaceholder(m: string, k: string, l: nat, x: nat)
    requires IndexOf(m, k) == Some(l)
    ensures |k| > 0 && OccursAt(Redact(m, k), k, x) && l < x + |k| && x < l + |REDACTED| ==> !DisjointFromPlaceholder(k)
  {
    var r := Redact(m, k);
    if |k| > 0 && OccursAt(r, k, x) && l < x + |k| && x < l + |REDACTED| {
      RedactAt(m, k, l);
      OccursAtPointwise(r, k, x);
      var y := if x < l then l else x;
      assert r[y] == k[y - x];
      assert r[y] == REDACTED[y - l];
    }
  }

  /** An occurrence starting after the placeholder is an occurrence in the original, shifted back. */
  lemma OccurrenceAfterPlaceholder(m: string, k: string, l: nat, x: nat)
    requires IndexOf(m, k) == Some(l)
    ensures OccursAt(Redact(m, k), k, x) && l + |REDACTED| <= x ==> OccursAt(m, k, x - |REDACTED| + |k|)
  {
  }

  /** In the redacted message, for a key with no character of the placeholder, every occurrence comes from a later one. */
  lemma {:induction false} RedactedOccurrenceIsLater(m: string, k: string, l: nat, x: nat)
    requires |k| > 0 && DisjointFromPlaceholder(k)
    requires IndexOf(m, k) == Some(l)
    requires OccursAt(Redact(m, k), k, x)
    ensures x >= l + |REDACTED| && OccursAt(m, k, x - |REDACTED| + |k|)
  {
    OccurrenceBeforeReplaced(m, k, l, x);
    OccurrenceAcrossPlaceholder(m, k, l, x);
    OccurrenceAfterPlaceholder(m, k, l, x);
  }

  /**
   * For a non-empty key with no character of the placeholder, the redacted message still holds
   * the key exactly when the original held it twice without overlap: one occurrence is removed,
   * never all of them.
   */
  lemma {:induction false} RedactLeavesKeyIff(m: string, k: string)
    requires |k| > 0 && DisjointFromPlaceholder(k)
    ensures Contains(Redact(m, k), k) <==> TwoDisjointOccurrences(m, k)
  {
    if TwoDisjointOccurrences(m, k) {
      RedactKeepsLaterOccurrence(m, k);
    }
    if Contains(Redact(m, k), k) {
      var r := Redact(m, k);
      var x: nat :| x <= |r| && OccursAt(r, k, x);
      RedactWithoutKey(m, k);
      assert Contains(m, k);
      var l :| IndexOf(m, k) == Some(l);
      RedactedOccurrenceIsLater(m, k, l, x);
      var y: nat := x - |REDACTED| + |k|;
      assert OccursAt(m, k, l) && OccursAt(m, k, y) && l + |k| <= y;
    }
  }

  /**
   * Under the same conditions, redacting twice gives the same text as redacting once exactly
   * when the key did not occur twice without overlap.
   */
  lemma {:induction false} RedactIdempotentIff(m: string, k: string)
    requires |k| > 0 && DisjointFromPlaceholder(k)
    ensures Redact(Redact(m, k), k) == Redact(m, k) <==> !TwoDisjointOccurrences(m, k)
  {
    var r := Redact(m, k);
    RedactLeavesKeyIff(m, k);
    if Contains(r, k) {
      var x :| IndexOf(r, k) == Some(x);
      RedactAt(r, k, x);
      assert Redact(r, k)[x] == '[';
      OccursAtPointwise(r, k, x);
      assert r[x] == k[0];
      assert k[0] != REDACTED[0];
    } else {
      RedactWithoutKey(r, k);
    }
  }

  /** A key that overlaps the placeholder can survive a single occurrence: "D]" inside "[REDACTED]". */
  lemma PlaceholderCanRecreateKey()
    ensures !TwoDisjointOccurrences("D]", "D]")
    ensures Redact("D]", "D]") == REDACTED && OccursAt(REDACTED, "D]", 8)
  {
  }

  /** An empty key is found at the start: the placeholder is put in front of the message. */
  lemma EmptyKeyPrefixesPlaceholder(m: string)
    ensures Redact(m, "") == REDACTED + m
  {
  }

  // ---------------------------------------------------------------------------------------
  // Outcome of a call
  // ---------------------------------------------------------------------------------------

  /** The errors a call can end with. */
  datatype CallError =
      /** An `Error` the adapter throws, with its message. */
    | ApiError(message: string)
      /** `response.json()` on a successful response throws; the exception propagates as it is. */
    | InvalidJson

  /** The message thrown when a successful response carries no usable image. */
  function NoImageMessage(context: string): string
  {
    "The Fal.ai model did not return an image for the " + context + "."
  }

  /** What a successful response yields: the first image's URL, or an error. */
  function SuccessOutcome(body: ResponseBody, context: string): (r: Result<string, CallError>)
    ensures r.Success? ==> body.SuccessJson? && |body.images| > 0 && body.images[0] == Some(r.value) && r.value != ""
    ensures body.SuccessJson? && |body.images| > 0 && Truthy(body.images[0]) ==> r.Success?
    ensures r.Failure? ==> r.error == ApiError(NoImageMessage(context)) || r.error == InvalidJson
    ensures r == Failure(InvalidJson) <==> body.JsonFails?
  {
    match body
    case SuccessJson(images) =>
      if |images| > 0 && Truthy(images[0]) then Success(images[0].value)
      else Failure(ApiError(NoImageMessage(context)))
    case JsonBody(_, _) => Failure(ApiError(NoImageMessage(context)))
    case JsonFails(_) => Failure(InvalidJson)
  }

  /**
   * The outcome of one call, given the response the endpoint returned: a URL only from a
   * successful response with a usable first image; a failed response always throws its
   * message, unchanged when the key does not occur in it.
   */
  function CallOutcome(response: Response, apiKey: string, context: string): (r: Result<string, CallError>)
    ensures r.Success? <==> response.Ok() && response.body.SuccessJson? && |response.body.images| > 0 && Truthy(response.body.images[0])
    ensures r.Success? ==> r.value == response.body.images[0].value
    ensures !response.Ok() ==> r.Failure? && r.error.ApiError?
    ensures !response.Ok() && !Contains(FailureMessage(response), apiKey) ==> r.error.message == FailureMessage(response)
    ensures r == Failure(InvalidJson) <==> response.Ok() && response.body.JsonFails?
    ensures response.Ok() && r.Failure? && !response.body.JsonFails? ==> r.error == ApiError(NoImageMessage(context))
  {
    if !response.Ok() then Failure(ApiError(Redact(FailureMessage(response), apiKey)))
    else SuccessOutcome(response.body, context)
  }

  /** The status prefix holds no `[`, the first character of the placeholder. */
  lemma StatusPrefixHasNoBracket(status: nat)
    ensures forall x :: 0 <= x < |StatusPrefix(status)| ==> StatusPrefix(status)[x] != '['
  {
  }

  /**
   * The thrown message of a failed request starts with the status prefix exactly when no
   * occurrence of the key starts inside that prefix; otherwise redaction overwrites part of it.
   */
  lemma {:induction false} ThrownMessageKeepsStatusIff(response: Response, apiKey: string, context: string)
    requires !response.Ok()
    ensures var r := CallOutcome(response, apiKey, context);
      && r.Failure? && r.error.ApiError?
      && (StartsWith(r.error.message, StatusPrefix(response.status))
          <==> forall j: nat :: j < |StatusPrefix(response.status)| ==> !OccursAt(FailureMessage(response), apiKey, j))
  {
    var m := FailureMessage(response);
    var p := StatusPrefix(response.status);
    var thrown := Redact(m, apiKey);
    match IndexOf(m, apiKey)
    case None =>
    case Some(i) =>
      if i < |p| {
        RedactAt(m, apiKey, i);
        StatusPrefixHasNoBracket(response.status);
        assert thrown[i] == '[';
        assert p[i] != '[';
        assert !StartsWith(thrown, p) by {
          if |p| <= |thrown| {
            assert thrown[..|p|][i] != p[i];
          }
        }
      } else {
        assert (m[..i] + REDACTED + m[i + |apiKey|..])[..|p|] == m[..i][..|p|] == p;
      }
  }

  // ---------------------------------------------------------------------------------------
  // The call itself
  // ---------------------------------------------------------------------------------------

  /**
   * `callFalApi`: builds the request body, and from the response the endpoint returned builds
   * the result. `errorLog` is the message passed to `console.error` on a failed request.
   */
  method CallFalApi(imageData: string, prompt: string, apiKey: string, context: string, response: Response)
    returns (body: RequestBody, result: Result<string, CallError>, errorLog: Option<string>)
    ensures body == BuildRequestBody(imageData, prompt)
    ensures result == CallOutcome(response, apiKey, context)
    ensures errorLog.Some? <==> !response.Ok()
    ensures errorLog.Some? ==> result == Failure(ApiError(errorLog.value))
  {
    body := BuildRequestBody(imageData, prompt);
    errorLog := None;
    if !response.Ok() {
      var errorMessage := StatusPrefix(response.status);
      match response.body {
        case JsonBody(error, detail) =>
          if Truthy(error) {
            errorMessage := errorMessage + ": " + error.value;
          } else if Truthy(detail) {
            errorMessage := errorMessage + ": " + detail.value;
          }
        case SuccessJson(_) =>
        case JsonFails(text) =>
          if Truthy(text) {
            errorMessage := errorMessage + ": " + text.value;
          }
      }
      assert errorMessage == FailureMessage(response);
      var redacted := Redact(errorMessage, apiKey);
      errorLog := Some(redacted);
      result := Failure(ApiError(redacted));
      return;
    }
    result := SuccessOutcome(response.body, context);
  }

  // ---------------------------------------------------------------------------------------
  // Prompts of the three operations
  // ---------------------------------------------------------------------------------------

  /** A prompt template: fixed text before and after the user's request. */
  datatype Template = Template(prefix: string, suffix: string) {
    /** The prompt sent for the user's text. */
    function Fill(text: string): (r: string)
      ensures StartsWith(r, prefix) && EndsWith(r, suffix)
      ensures OccursAt(r, text, |prefix|) && |r| == |prefix| + |text| + |suffix|
    {
      prefix + text + suffix
    }

    /** The user's text inside a prompt of this template, if the prompt has its shape. */
    function Extract(s: string): Option<string>
    {
      if |prefix| + |suffix| <= |s| && StartsWith(s, prefix) && EndsWith(s, suffix)
      then Some(s[|prefix|..|s| - |suffix|])
      else None
    }
  }

  /** Extracting from a filled template gives back the user's text. */
  lemma ExtractFill(t: Template, text: string)
    ensures t.Extract(t.Fill(text)) == Some(text)
  {
  }

  /** A prompt of the template's shape is the filling of the text extracted from it. */
  lemma FillExtract(t: Template, s: string)
    requires t.Extract(s).Some?
    ensures t.Fill(t.Extract(s).value) == s
  {
  }

  /** The three operations of the adapter. */
  datatype Operation = Edit | Filter | Adjustment

  const FILTER_TEMPLATE := Template(
    "Apply a stylistic filter to the entire image based on this request: \"",
    "\". Do not change the composition or content, only apply the style.")

  const ADJUSTMENT_TEMPLATE := Template(
    "Perform a natural, global adjustment to the entire image based on this request: \"",
    "\".")

  /** An edit sends the user's text as it is. */
  const EDIT_TEMPLATE := Template("", "")

  function TemplateOf(op: Operation): Template
  {
    match op
    case Edit => EDIT_TEMPLATE
    case Filter => FILTER_TEMPLATE
    case Adjustment => ADJUSTMENT_TEMPLATE
  }

  /** The context string each operation passes along, used in the no-image message. */
  function ContextOf(op: Operation): string
  {
    match op
    case Edit => "edit"
    case Filter => "filter"
    case Adjustment => "adjustment"
  }

  /** The prompt sent for an operation: the user's text appears in it verbatim. */
  function PromptFor(op: Operation, text: string): (p: string)
    ensures Contains(p, text)
    ensures TemplateOf(op).Extract(p) == Some(text)
    ensures op == Edit ==> p == text
  {
    ExtractFill(TemplateOf(op), text);
    TemplateOf(op).Fill(text)
  }

  /** Different requests of one operation give different prompts. */
  lemma PromptForInjective(op: Operation, text: string, text': string)
    requires PromptFor(op, text) == PromptFor(op, text')
    ensures text == text'
  {
  }

  /** `generateEditedImageWithFal`, with the encoded image given. */
  method GenerateEditedImageWithFal(imageBase64: string, userPrompt: string, apiKey: string, response: Response)
    returns (body: RequestBody, result: Result<string, CallError>, errorLog: Option<string>)
    ensures body == BuildRequestBody(imageBase64, userPrompt)
    ensures result == CallOutcome(response, apiKey, ContextOf(Edit))
    ensures errorLog.Some? <==> !response.Ok()
    ensures errorLog.Some? ==> result == Failure(ApiError(errorLog.value))
  {
    body, result, errorLog := CallFalApi(imageBase64, userPrompt, apiKey, ContextOf(Edit), response);
  }

  /** `generateFilteredImageWithFal`, with the encoded image given. */
  method GenerateFilteredImageWithFal(imageBase64: string, filterPrompt: string, apiKey: string, response: Response)
    returns (body: RequestBody, result: Result<string, CallError>, errorLog: Option<string>)
    ensures body == BuildRequestBody(imageBase64, PromptFor(Filter, filterPrompt))
    ensures result == CallOutcome(response, apiKey, ContextOf(Filter))
    ensures errorLog.Some? <==> !response.Ok()
    ensures errorLog.Some? ==> result == Failure(ApiError(errorLog.value))
  {
    var prompt := FILTER_TEMPLATE.Fill(filterPrompt);
    body, result, errorLog := CallFalApi(imageBase64, prompt, apiKey, ContextOf(Filter), response);
  }

  /** `generateAdjustedImageWithFal`, with the encoded image given. */
  method GenerateAdjustedImageWithFal(imageBase64: string, adjustmentPrompt: string, apiKey: string, response: Response)
    returns (body: RequestBody, result: Result<string, CallError>, errorLog: Option<string>)
    ensures body == BuildRequestBody(imageBase64, PromptFor(Adjustment, adjustmentPrompt))
    ensures result == CallOutcome(response, apiKey, ContextOf(Adjustment))
    ensures errorLog.Some? <==> !response.Ok()
    ensures errorLog.Some? ==> result == Failure(ApiError(errorLog.value))
  {
    var prompt := ADJUSTMENT_TEMPLATE.Fill(adjustmentPrompt);
    body, result, errorLog := CallFalApi(imageBase64, prompt, apiKey, ContextOf(Adjustment), response);
  }
}
