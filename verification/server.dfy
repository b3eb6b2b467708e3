/** The two request handlers of the backend proxy: `/api/verify-password`,
    which checks a password against the configured one ignoring case, and
    `/api/chat`, which validates the posted history, forwards its most recent
    part to the completion service and translates the outcome into an HTTP
    status and JSON body. The completion service is a parameter: the handler
    is given the function from forwarded history to outcome. */
module Server {
  import opened Wrappers
  import Ascii
  import Recent

  /** A JSON value as it arrives in a request body. Numbers are integers. */
  datatype Value =
    | Null
    | Bool(b: bool)
    | Number(n: int)
    | Str(s: string)
    | Array(items: seq<Value>)
    | Object(fields: map<string, Value>)

  /** JavaScript truthiness of a value that is present. */
  predicate Truthy(v: Value) {
    !(v == Null || v == Bool(false) || v == Number(0) || v == Str(""))
  }

  /** The JSON body of a response. */
  datatype Body =
    | ErrorBody(error: string)
    | MessageBody(message: Value)
    | VerdictBody(valid: bool)

  datatype Response = Response(status: nat, body: Body)

  // ---------------------------------------------------------------------
  // POST /api/verify-password

  const DefaultPassword := "pass123"

  /** The password to compare with: the configured one, or the default when
      none is configured or it is empty. */
  function ConfiguredPassword(env: Option<string>): (p: string)
    ensures p != ""
    ensures env.Some? && env.value != "" ==> p == env.value
    ensures env == None || env == Some("") ==> p == DefaultPassword
  {
    if env.Some? && env.value != "" then env.value else DefaultPassword
  }

  /** The handler for the request field `password` (absent when `None`). */
  function VerifyPassword(password: Option<Value>, env: Option<string>): (r: Response)
    ensures r.status == 400 <==> !(password.Some? && password.value.Str? && password.value.s != "")
    ensures r.status == 400 ==> r.body == ErrorBody("Invalid password format")
    ensures r.status != 400 ==>
              r.status == 200 && r.body.VerdictBody? &&
              (r.body.valid <==> Ascii.SameIgnoringCase(password.value.s, ConfiguredPassword(env)))
  {
    if password.None? || !Truthy(password.value) || !password.value.Str? then
      Response(400, ErrorBody("Invalid password format"))
    else
      Response(200, VerdictBody(Ascii.Upper(password.value.s) == Ascii.Upper(ConfiguredPassword(env))))
  }

  /** Whether a well-formed password is accepted. */
  predicate Accepted(password: string, env: Option<string>)
    requires password != ""
  {
    VerifyPassword(Some(Str(password)), env) == Response(200, VerdictBody(true))
  }

  /** The verdict does not depend on the case in which the password is
      typed: a password and its upper-cased form are accepted alike. */
  lemma PasswordCaseInsensitive(password: string, env: Option<string>)
    requires password != ""
    ensures Ascii.Upper(password) != ""
    ensures Accepted(password, env) <==> Accepted(Ascii.Upper(password), env)
  {
    Ascii.UpperIdempotent(password);
  }

  /** The comparison is symmetric: swapping the typed and the configured
      password gives the same verdict. */
  lemma PasswordSymmetric(password: string, configured: string)
    requires password != "" && configured != ""
    ensures Accepted(password, Some(configured)) <==> Accepted(configured, Some(password))
  {
  }

  /** With no password configured, exactly the strings equal to "pass123"
      ignoring case are accepted. */
  lemma DefaultPasswordAccepted(password: string)
    requires password != ""
    ensures Accepted(password, None) <==> Ascii.SameIgnoringCase(password, "pass123")
  {
  }

  // ---------------------------------------------------------------------
  // POST /api/chat

  /** How many of the most recent messages are forwarded. */
  const ForwardWindow: nat := 20

  /** One choice of a completion, holding the message that answers. */
  datatype Choice = Choice(message: Value)

  /** What the completion service does with the forwarded messages: answer
      with a list of choices, or fail, possibly with an HTTP status of its
      own. */
  datatype Outcome =
    | Completion(choices: seq<Choice>)
    | Failure(status: Option<int>)

  /** What the handler does before the completion call: reject the request,
      or forward the given messages. */
  datatype ChatPlan = Reject(response: Response) | Forward(messages: seq<Value>)

  /** Validation and truncation: anything but an array is rejected; an array,
      even an empty one, is cut down to its last twenty entries. */
  function PlanChat(messages: Option<Value>): (p: ChatPlan)
    ensures p.Reject? <==> !(messages.Some? && messages.value.Array?)
    ensures p.Reject? ==> p.response == Response(400, ErrorBody("Invalid messages format"))
    ensures p.Forward? ==>
              |p.messages| == (if |messages.value.items| <= ForwardWindow then |messages.value.items| else ForwardWindow) &&
              messages.value.items == messages.value.items[..|messages.value.items| - |p.messages|] + p.messages
  {
    if messages.None? || !Truthy(messages.value) || !messages.value.Array? then
      Reject(Response(400, ErrorBody("Invalid messages format")))
    else
      Forward(Recent.Last(messages.value.items, ForwardWindow))
  }

  /** The response for an outcome of the completion call: the first choice's
      message on success; a rate limit is passed on as 429; a rejected key and
      every other failure (including an answer with no choice at all) become
      500 with a message that says which. */
  function Answer(o: Outcome): (r: Response)
    ensures r.status == 200 <==> o.Completion? && |o.choices| > 0
    ensures r.status == 200 ==> r.body == MessageBody(o.choices[0].message)
    ensures r.status == 429 <==> o == Failure(Some(429))
    ensures r.status == 429 ==> r.body == ErrorBody("Rate limit exceeded. Please try again later.")
    ensures o == Failure(Some(401)) ==> r == Response(500, ErrorBody("API key configuration error"))
    ensures (o.Completion? && |o.choices| == 0) ||
            (o.Failure? && o.status != Some(429) && o.status != Some(401)) ==>
              r == Response(500, ErrorBody("OpenAI request failed"))
    ensures r.status in {200, 429, 500}
    ensures r.status != 200 ==> r.body.ErrorBody?
  {
    match o
    case Completion(choices) =>
      if |choices| > 0 then Response(200, MessageBody(choices[0].message))
      else Response(500, ErrorBody("OpenAI request failed"))
    case Failure(status) =>
      if status == Some(429) then Response(429, ErrorBody("Rate limit exceeded. Please try again later."))
      else if status == Some(401) then Response(500, ErrorBody("API key configuration error"))
      else Response(500, ErrorBody("OpenAI request failed"))
  }

  /** The `/api/chat` handler, for the request field `messages` and the
      completion service `complete`. */
  function HandleChat(messages: Option<Value>, complete: seq<Value> -> Outcome): (r: Response)
    ensures PlanChat(messages).Reject? ==> r == Response(400, ErrorBody("Invalid messages format"))
    ensures PlanChat(messages).Forward? ==> r == Answer(complete(PlanChat(messages).messages))
  {
    match PlanChat(messages)
    case Reject(response) => response
    case Forward(forwarded) => Answer(complete(forwarded))
  }

  /** An invalid request is answered without asking the completion service:
      the response is the same whatever the service would have done. */
  lemma InvalidChatSkipsCompletion(messages: Option<Value>, f: seq<Value> -> Outcome, g: seq<Value> -> Outcome)
    requires !(messages.Some? && messages.value.Array?)
    ensures HandleChat(messages, f) == HandleChat(messages, g)
    ensures HandleChat(messages, f).status == 400
  {
  }

  /** The service sees the last min(20, n) messages of the history, in their
      original order. */
  lemma ForwardedWindow(items: seq<Value>, k: nat)
    requires k < |PlanChat(Some(Array(items))).messages|
    ensures |PlanChat(Some(Array(items))).messages| == if |items| <= ForwardWindow then |items| else ForwardWindow
    ensures PlanChat(Some(Array(items))).messages[k] ==
              items[|items| - |PlanChat(Some(Array(items))).messages| + k]
  {
    var w := Recent.Last(items, ForwardWindow);
    assert PlanChat(Some(Array(items))).messages == w by {
      assert Truthy(Array(items));
    }
    Recent.LastInOrder(items, ForwardWindow, k);
  }

  /** The browser sends at most its last twelve entries, so the server's cut
      to twenty never drops any of them. */
  lemma ClientWindowForwardedWhole(history: seq<Value>)
    ensures PlanChat(Some(Array(Recent.Last(history, 12)))) == Forward(Recent.Last(history, 12))
  {
    Recent.LastWithin(history, 12, ForwardWindow);
  }
}
