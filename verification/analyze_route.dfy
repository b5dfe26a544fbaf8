/** The text-analysis endpoint `POST /api/analyze/book`: it validates the
    request body, truncates the text, builds the prompt, sends one
    chat-completion request and returns the parsed answer or an error.
    Reading the body, the completion call and `JSON.parse` are supplied by
    the caller as oracles; each either yields a value or fails with a
    message, as a thrown error would. */
module AnalyzeBookRoute {
  import opened Maybe

  /** The longest text prefix sent to the model. */
  const MaxTextLength: nat := 20000

  const ModelId := "meta-llama/llama-4-scout-17b-16e-instruct"
  const Temperature: real := 0.2

  const NoTextError := "No text provided for analysis"
  const FailurePrefix := "Failed to analyze book: "
  const EmptyResponseError := "Empty response from LLM"

  /** The prompt up to the book title. */
  const PromptLead: string := "\n      Analyze the following text from the book \""

  /** The quote and colon closing the book title. */
  const TitleClose: string := "\":"

  /** The blank line between the title line and the book text. */
  const PromptBeforeText: string := "\n      \n      "

  /** The instructions that follow the book text: the two extraction tasks
      and the JSON shape the model must answer with, one string per line
      of the template. */
  const PromptTailLines: seq<string> := [
    "\n",
    "      \n",
    "      Complete the following two tasks:\n",
    "      \n",
    "      TASK 1: Extract all main single " +
      "characters from this novel text,skip " +
      "any unknown characters (A genleman, " +
      "A Priest, etc..), skip the book " +
      "introduction and other non-novel " +
      "text. For each character provide:\n",
    "      1. Full name\n",
    "      2. Any aliases or nicknames \n",
    "      3. Brief description (1-2 sentences)\n",
    "      4. Importance level (main, " +
      "secondary, minor)\n",
    "      \n",
    "      TASK 2: Identify interactions " +
      "between the characters. Avoid any " +
      "duplicate interactions, for example " +
      "if character A and character B interact, " +
      "do not include character B and character " +
      "A. For each pair of characters that " +
      "interact, provide:\n",
    "      1. The names of the two characters\n",
    "      2. A brief description of " +
      "their relationship (1-2 sentences)\n",
    "      3. The nature of their interaction " +
      "(allies, enemies, family, romantic, etc.)\n",
    "      4. A significance score from " +
      "1-10 (10 being the most significant " +
      "relationship in the book)\n",
    "      \n",
    "      Format the response as a JSON " +
      "object with two properties: \"characters\" " +
      "and \"interactions\".\n",
    "      Example format:\n",
    "      {\n",
    "        \"characters\": [\n",
    "          {\n",
    "            \"name\": \"Character Name\",\n",
    "            \"aliases\": [\"nickname1\", " +
      "\"nickname2\"],\n",
    "            \"description\": \"Brief " +
      "character description\",\n",
    "            \"importance\": \"main\"\n",
    "          }\n",
    "        ],\n",
    "        \"interactions\": [\n",
    "          {\n",
    "            \"character1\": \"Character Name 1\",\n",
    "            \"character2\": \"Character Name 2\",\n",
    "            \"relationship\": \"Brief " +
      "description of their relationship\",\n",
    "            \"nature\": \"allies\", \n",
    "            \"significance\": 8\n",
    "          }\n",
    "        ]\n",
    "      }\n",
    "      \n",
    "      Focus on identifying meaningful " +
      "relationships between the main and " +
      "secondary characters.\n",
    "      Only return the JSON object, " +
      "nothing else. Do not use markdown " +
      "code blocks. Do not add any formatting.\n",
    "    "]

  const PromptTail: string := Concat(PromptTailLines)

  /** The parts joined in order. */
  function Concat(parts: seq<string>): string {
    if |parts| == 0 then "" else parts[0] + Concat(parts[1..])
  }

  /** The two fields read from the JSON body; either may be missing. */
  datatype RequestBody = RequestBody(text: Option<string>, title: Option<string>)

  /** A chat message and the completion request sent to the model. */
  datatype Message = Message(role: string, content: string)
  datatype ChatRequest = ChatRequest(messages: seq<Message>, model: string, temperature: real)

  /** A JSON response: the parsed analysis or an `{ error }` object. */
  datatype Payload<J> = Data(value: J) | Failure(error: string)
  datatype Response<J> = Response(status: int, payload: Payload<J>)

  /** The response, together with the completion request sent, if any. */
  datatype Handled<J> = Handled(response: Response<J>, sent: Option<ChatRequest>)

  /** JavaScript truthiness of an optional string field. */
  predicate Truthy(field: Option<string>) {
    field.Some? && field.value != ""
  }

  /** `text.slice(0, 20000)`: a hard cut after 20,000 characters. */
  function Truncate(text: string): (r: string)
    ensures |r| == if |text| < MaxTextLength then |text| else MaxTextLength
    ensures r == text[..|r|]
  {
    if |text| <= MaxTextLength then text else text[..MaxTextLength]
  }

  /** `title || "unknown"`. */
  function ShownTitle(title: Option<string>): (r: string)
    ensures |r| > 0
    ensures Truthy(title) ==> r == title.value
    ensures !Truthy(title) ==> r == "unknown"
  {
    if Truthy(title) then title.value else "unknown"
  }

  /** The prompt for a book title and a (truncated) text. */
  function BuildPrompt(title: string, text: string): string {
    PromptLead + title + TitleClose + PromptBeforeText + text + PromptTail
  }

  /** The part of `s` between a given prefix and suffix, if `s` has them. */
  function Between(s: string, prefix: string, suffix: string): Option<string> {
    if |prefix| + |suffix| <= |s| && s[..|prefix|] == prefix && s[|s| - |suffix|..] == suffix
    then Some(s[|prefix|..|s| - |suffix|])
    else None
  }

  lemma BetweenRoundTrip(prefix: string, middle: string, suffix: string)
    ensures Between(prefix + middle + suffix, prefix, suffix) == Some(middle)
  {
    var s := prefix + middle + suffix;
    assert s[..|prefix|] == prefix;
    assert s[|s| - |suffix|..] == suffix;
    assert s[|prefix|..|s| - |suffix|] == middle;
  }

  lemma BetweenSound(s: string, prefix: string, suffix: string)
    requires Between(s, prefix, suffix).Some?
    ensures prefix + Between(s, prefix, suffix).value + suffix == s
  {
    assert s == s[..|prefix|] + s[|prefix|..|s| - |suffix|] + s[|s| - |suffix|..];
  }

  /** The book text a prompt carries, read back given the title. */
  function EmbeddedText(prompt: string, title: string): Option<string> {
    Between(prompt, PromptLead + title + TitleClose + PromptBeforeText, PromptTail)
  }

  /** The prompt carries the text verbatim and nothing else in its place:
      reading it back gives the text, and only a prompt built from that
      title and text reads back so. */
  lemma PromptEmbedsText(title: string, text: string, prompt: string)
    ensures EmbeddedText(BuildPrompt(title, text), title) == Some(text)
    ensures EmbeddedText(prompt, title) == Some(text) ==> prompt == BuildPrompt(title, text)
  {
    var head := PromptLead + title + TitleClose + PromptBeforeText;
    BetweenRoundTrip(head, text, PromptTail);
    assert BuildPrompt(title, text) == head + text + PromptTail;
    if EmbeddedText(prompt, title) == Some(text) {
      BetweenSound(prompt, head, PromptTail);
    }
  }

  /** The prompt opens by naming the book. */
  lemma PromptNamesBook(title: string, text: string)
    ensures PromptLead + title + TitleClose <= BuildPrompt(title, text)
  {
    SplitAfterThird(PromptLead, title, TitleClose, PromptBeforeText, text, PromptTail);
  }

  lemma SplitAfterThird(a: string, b: string, c: string, d: string, e: string, f: string)
    ensures a + b + c <= a + b + c + d + e + f
  {
    assert a + b + c + d + e + f == (a + b + c) + (d + e + f);
  }

  /** The single completion request for a text and title. */
  function CompletionRequest(text: string, title: Option<string>): ChatRequest {
    ChatRequest([Message("user", BuildPrompt(ShownTitle(title), Truncate(text)))], ModelId, Temperature)
  }

  /** The request holds one user message, the fixed model and temperature
      0.2; its prompt names the book and carries exactly the first 20,000
      characters of the text. */
  lemma CompletionRequestContents(text: string, title: Option<string>)
    ensures var c := CompletionRequest(text, title);
      && |c.messages| == 1 && c.messages[0].role == "user"
      && c.model == ModelId && c.temperature == 0.2
      && PromptLead + ShownTitle(title) + TitleClose <= c.messages[0].content
      && EmbeddedText(c.messages[0].content, ShownTitle(title)) == Some(Truncate(text))
  {
    var prompt := BuildPrompt(ShownTitle(title), Truncate(text));
    PromptEmbedsText(ShownTitle(title), Truncate(text), prompt);
    PromptNamesBook(ShownTitle(title), Truncate(text));
  }

  /** A 500 response carrying the message of the error that was thrown. */
  function Fail<J>(message: string): (r: Response<J>)
    ensures r.status == 500 && r.payload.Failure?
    ensures FailurePrefix <= r.payload.error
    ensures r.payload.error[|FailurePrefix|..] == message
  {
    StartsWith(FailurePrefix, message);
    Response(500, Failure(FailurePrefix + message))
  }

  lemma StartsWith(head: string, rest: string)
    ensures head <= head + rest
  {
  }

  /** The `POST` handler. `body` is the outcome of `request.json()`,
      `complete` answers a completion request with the content of its first
      choice (or fails), and `parse` is `JSON.parse`. */
  function Handle<J>(body: Result<RequestBody>, complete: ChatRequest -> Result<Option<string>>,
                     parse: string -> Result<J>): (h: Handled<J>)
    ensures body.Err? ==> h == Handled(Fail(body.message), None)
    ensures body.Ok? && !Truthy(body.value.text) ==>
      h == Handled(Response(400, Failure(NoTextError)), None)
    ensures body.Ok? && Truthy(body.value.text) ==>
      var request := CompletionRequest(body.value.text.value, body.value.title);
      h == Handled(Respond(complete(request), parse), Some(request))
  {
    match body
    case Err(message) => Handled(Fail(message), None)
    case Ok(RequestBody(text, title)) =>
      if !Truthy(text) then Handled(Response(400, Failure(NoTextError)), None)
      else
        var request := CompletionRequest(text.value, title);
        Handled(Respond(complete(request), parse), Some(request))
  }

  /** The response to the model's reply: an error for a failed call or an
      empty content, otherwise whatever parsing the content gives. */
  function Respond<J>(reply: Result<Option<string>>, parse: string -> Result<J>): (r: Response<J>)
    ensures reply.Err? ==> r == Fail(reply.message)
    ensures reply.Ok? && !Truthy(reply.value) ==> r == Fail(EmptyResponseError)
    ensures reply.Ok? && Truthy(reply.value) ==>
      var parsed := parse(reply.value.value);
      && (parsed.Err? ==> r == Fail(parsed.message))
      && (parsed.Ok? ==> r == Response(200, Data(parsed.value)))
  {
    match reply
    case Err(message) => Fail(message)
    case Ok(content) =>
      if !Truthy(content) then Fail(EmptyResponseError)
      else
        match parse(content.value)
        case Err(message) => Fail(message)
        case Ok(analysis) => Response(200, Data(analysis))
  }

  /** A request succeeds exactly when the body has a text, the model answers
      with non-empty content, and that content parses; the parsed value is
      then returned unchanged, with no check of its shape. */
  lemma SuccessIffAllStagesSucceed<J>(body: Result<RequestBody>, complete: ChatRequest -> Result<Option<string>>,
                                      parse: string -> Result<J>)
    ensures var h := Handle(body, complete, parse);
      h.response.status == 200 <==>
        && body.Ok? && Truthy(body.value.text)
        && var reply := complete(CompletionRequest(body.value.text.value, body.value.title));
           reply.Ok? && Truthy(reply.value) && parse(reply.value.value).Ok?
  {
  }

  /** Every response is a 200 with data, a 400, or a 500 whose error
      starts with "Failed to analyze book: ". */
  lemma ResponseShape<J>(body: Result<RequestBody>, complete: ChatRequest -> Result<Option<string>>,
                         parse: string -> Result<J>)
    ensures var r := Handle(body, complete, parse).response;
      && (r.status == 200 || r.status == 400 || r.status == 500)
      && (r.payload.Failure? <==> r.status != 200)
      && (r.status == 500 ==> FailurePrefix <= r.payload.error)
  {
    if body.Ok? && Truthy(body.value.text) {
      RespondShape(complete(CompletionRequest(body.value.text.value, body.value.title)), parse);
    }
  }

  /** The response to a reply is a 200 with data or a 500 whose error
      starts with "Failed to analyze book: ". */
  lemma RespondShape<J>(reply: Result<Option<string>>, parse: string -> Result<J>)
    ensures var r := Respond(reply, parse);
      && (r.status == 200 || r.status == 500)
      && (r.payload.Failure? <==> r.status == 500)
      && (r.status == 500 ==> FailurePrefix <= r.payload.error)
  {
    if reply.Ok? && Truthy(reply.value) {
      var parsed := parse(reply.value.value);
    }
  }

  /** An empty reply from the model is answered with a 500 carrying exactly
      "Failed to analyze book: Empty response from LLM". */
  lemma EmptyReplyText<J>(content: Option<string>, parse: string -> Result<J>)
    requires !Truthy(content)
    ensures Respond(Ok(content), parse) == Response(500, Failure("Failed to analyze book: Empty response from LLM"))
  {
    EmptyFailureText();
  }

  lemma EmptyFailureText()
    ensures FailurePrefix + EmptyResponseError == "Failed to analyze book: Empty response from LLM"
  {
  }

  /** No model request is made for a body without text. */
  lemma NoTextNoRequest<J>(text: Option<string>, title: Option<string>,
                           complete: ChatRequest -> Result<Option<string>>, parse: string -> Result<J>)
    requires !Truthy(text)
    ensures Handle(Ok(RequestBody(text, title)), complete, parse).sent == None
    ensures Handle(Ok(RequestBody(text, title)), complete, parse).response.status == 400
  {
  }
}
