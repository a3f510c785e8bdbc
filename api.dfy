/**
  The pure helpers of the API client in todo_frontend/src/services/api.js:
  URL building, tolerant JSON parsing of a response body, and the choice of
  the message carried by the error raised for a non-success response. The
  `fetch` calls themselves are not part of this model; their outcome reaches
  the task store as a `Remote` value.
*/
module Api {
  import opened Wrappers

  /** What an awaited call can reject with: an `Error` object with its
      `message`, or any other thrown value. */
  datatype Thrown = ErrorValue(message: string) | OtherValue

  /** The settled outcome of a remote call. */
  datatype Remote<+T> = Success(value: T) | Failure(thrown: Thrown)

  /** The backend origin; left empty in the source, so paths are same-origin. */
  const ApiBaseUrl: string := ""

  /** `${API_BASE_URL}${path}`: the base followed by the path, nothing else. */
  function BuildUrl(path: string): (url: string)
    ensures |url| == |ApiBaseUrl| + |path|
    ensures url[..|ApiBaseUrl|] == ApiBaseUrl && url[|ApiBaseUrl|..] == path
  {
    ApiBaseUrl + path
  }

  // ---------------------------------------------------------------------------
  // Response bodies
  // ---------------------------------------------------------------------------

  /** The part of a parsed JSON body that the error path reads: its `detail`
      and `message` fields when they are strings. A parsed value without them
      (a number, an array, JSON `null`) is `Body(None, None)`. */
  datatype Body = Body(detail: Option<string>, message: Option<string>)

  /** A fetch response as far as the client inspects it. */
  datatype Response = Response(ok: bool, status: nat, statusText: string, text: string)

  /** Tolerant parsing: empty text gives no body, and so does text the parser
      rejects. `parse` stands for `JSON.parse`, with `None` for a throw. */
  function ParseJson(text: string, parse: string -> Option<Body>): (body: Option<Body>)
    ensures text == [] ==> body == None
    ensures parse(text) == None ==> body == None
    ensures text != [] ==> body == parse(text)
  {
    if text == [] then None else parse(text)
  }

  // ---------------------------------------------------------------------------
  // Error messages
  // ---------------------------------------------------------------------------

  /** A field counts when it is present and not the empty string (JavaScript
      truthiness of a string). */
  predicate Truthy(field: Option<string>)
  {
    field.Some? && field.value != []
  }

  function DigitChar(d: nat): (c: char)
    requires d < 10
    ensures '0' <= c <= '9' && c as int - '0' as int == d
  {
    "0123456789"[d]
  }

  /** `${n}` for a non-negative integer: its decimal digits. */
  function DecimalString(n: nat): (s: string)
    ensures s != []
    ensures forall i :: 0 <= i < |s| ==> '0' <= s[i] <= '9'
    ensures s[0] == '0' ==> n == 0
    ensures n == 0 ==> s == "0"
  {
    if n < 10 then [DigitChar(n)] else DecimalString(n / 10) + [DigitChar(n % 10)]
  }

  /** The number a string of decimal digits denotes. */
  function DigitsValue(s: string): nat
    requires forall i :: 0 <= i < |s| ==> '0' <= s[i] <= '9'
  {
    if s == [] then 0 else DigitsValue(s[..|s| - 1]) * 10 + (s[|s| - 1] as int - '0' as int)
  }

  /** The status rendered in a synthesized message reads back as the status. */
  lemma {:induction false} DecimalRoundTrip(n: nat)
    ensures DigitsValue(DecimalString(n)) == n
  {
    if n >= 10 {
      var s := DecimalString(n);
      assert s[..|s| - 1] == DecimalString(n / 10);
      DecimalRoundTrip(n / 10);
    }
  }

  /** The message synthesized when the body names no reason. */
  function FallbackMessage(status: nat, statusText: string): string
  {
    "Request failed (" + DecimalString(status) + " " + statusText + ")"
  }

  /** `(body && (body.detail || body.message)) || fallback`: `detail` first,
      then `message`, then the synthesized text; never empty. */
  function ErrorMessage(body: Option<Body>, status: nat, statusText: string): (msg: string)
    ensures msg != []
    ensures body.Some? && Truthy(body.value.detail) ==> msg == body.value.detail.value
    ensures (body.Some? && !Truthy(body.value.detail) && Truthy(body.value.message))
            ==> msg == body.value.message.value
    ensures (body.None? || (!Truthy(body.value.detail) && !Truthy(body.value.message)))
            ==> msg == FallbackMessage(status, statusText)
  {
    if body.Some? && Truthy(body.value.detail) then body.value.detail.value
    else if body.Some? && Truthy(body.value.message) then body.value.message.value
    else FallbackMessage(status, statusText)
  }

  /** The synthesized message has the shape `Request failed (<status> <statusText>)`
      and its status digits read back as the status. */
  lemma FallbackMessageShape(status: nat, statusText: string)
    ensures var m := FallbackMessage(status, statusText);
            var d := DecimalString(status);
            && m[..16] == "Request failed ("
            && m[16..16 + |d|] == d
            && DigitsValue(m[16..16 + |d|]) == status
            && m[16 + |d|] == ' '
            && m[17 + |d|..|m| - 1] == statusText
            && m[|m| - 1] == ')'
  {
    DecimalRoundTrip(status);
  }

  /** `throwIfNotOk`: nothing for a success response; otherwise always an
      `Error` whose message is chosen from the tolerant parse of the body. */
  function ThrowIfNotOk(res: Response, parse: string -> Option<Body>): (r: Remote<()>)
    ensures r.Success? <==> res.ok
    ensures r.Failure? ==> r.thrown.ErrorValue? && r.thrown.message != []
    ensures r.Failure? ==>
              r.thrown.message == ErrorMessage(ParseJson(res.text, parse), res.status, res.statusText)
  {
    if res.ok then Success(())
    else Failure(ErrorValue(ErrorMessage(ParseJson(res.text, parse), res.status, res.statusText)))
  }

  /** An error body whose text is empty or unparseable yields the synthesized
      message, whatever the parser would make of other text. */
  lemma UnreadableBodyFallsBack(res: Response, parse: string -> Option<Body>)
    requires !res.ok
    requires res.text == [] || parse(res.text) == None
    ensures ThrowIfNotOk(res, parse) == Failure(ErrorValue(FallbackMessage(res.status, res.statusText)))
  {
  }
}
