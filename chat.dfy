/**
 * ChatService.chat: one completion that may ask for the
 * search_medication_data tool, then for every such tool call a retrieval
 * and a second "confirmation" completion over the retrieved items. The
 * language model, the vector collection and JSON.parse of the tool
 * arguments are parameters.
 */
module Chat {
  import opened Wrappers
  import opened Json
  import Retrieval

  const SearchToolName: string := "search_medication_data"

  /** The values the declared tool's field parameter may take. */
  const FieldEnum: seq<string> :=
    ["name", "indicationsAndUsage", "dosageAndAdministration", "dosageFormsAndStrengths",
     "warningsAndPrecautions", "adverseReactions", "clinicalPharmacology", "clinicalStudies",
     "howSupplied", "useInSpecificPopulations", "description", "nonclinicalToxicology",
     "instructionsForUse", "mechanismOfAction", "contraindications", "boxedWarning"]

  datatype ToolSpec = ToolSpec(name: string, required: seq<string>, fieldEnum: seq<string>, strict: bool)

  /** getTools(): the single declared function tool. */
  const SearchTool: ToolSpec := ToolSpec(SearchToolName, ["userPrompt", "field"], FieldEnum, true)

  datatype ChatMessage = ChatMessage(role: string, content: string)
  datatype ToolCall = ToolCall(name: string, arguments: string)

  /** A completion's first choice message: text and the tool calls it asks for, if any. */
  datatype AssistantMessage = AssistantMessage(content: Option<string>, toolCalls: Option<seq<ToolCall>>)

  datatype CompletionRequest = CompletionRequest(
    model: string,
    messages: seq<ChatMessage>,
    tools: seq<ToolSpec>,
    store: bool,
    responseFormat: Option<string>)

  /** The parsed tool arguments (the strict tool schema requires both properties). */
  datatype SearchArgs = SearchArgs(userPrompt: string, field: string)

  /** The collaborators: the language model, the vector collection and JSON.parse. */
  datatype Services = Services(
    complete: CompletionRequest -> Result<AssistantMessage, string>,
    collection: Retrieval.QueryRequest -> Result<Retrieval.QueryResponse, string>,
    parseArgs: string -> Option<SearchArgs>)

  datatype ChatError =
    | CompletionFailed(message: string)
    | BadToolArguments(arguments: string)
    | RetrievalFailed(error: Retrieval.SearchError)

  const SearchPrompt: string :=
    "You must use the search_medication_data tool when searching for anything related to medical or drug data.\n"
    + "  If not specified as" + "sume the user is interested in drug data and use the search_medication_data tool.\n  "

  const ConfirmationHead: string :=
    "Your task is to read the search results list below against a user prompt and ONLY include the items "
    + "that are relevant to what the user asked on your response.\n"
    + "  Do not mention that there were other search results.\n"
    + "  Do not mention search result items that are not relevant. \n"
    + "  ## BEGIN Search Results:\n  "

  const ConfirmationTail: string := "\n  ## END Search results\n  "

  const UserHead: string := "## BEGIN USER PROMPT:\n  "
  const UserTail: string := "\n  ## END USER PROMPT\n  "

  /** getConfirmationPrompt(searchResults). */
  function ConfirmationPrompt(searchResults: string): string
  {
    ConfirmationHead + searchResults + ConfirmationTail
  }

  /** getConfirmationUserPrompt(userPrompt). */
  function ConfirmationUserPrompt(userPrompt: string): string
  {
    UserHead + userPrompt + UserTail
  }

  /** The text between a prompt's BEGIN and END markers. */
  function Embedded(prompt: string, head: string, tail: string): string
    requires |head| + |tail| <= |prompt|
  {
    prompt[|head|..|prompt| - |tail|]
  }

  /** Both prompts carry their argument verbatim between their markers. */
  lemma PromptsEmbedVerbatim(searchResults: string, userPrompt: string)
    ensures Embedded(ConfirmationPrompt(searchResults), ConfirmationHead, ConfirmationTail) == searchResults
    ensures Embedded(ConfirmationUserPrompt(userPrompt), UserHead, UserTail) == userPrompt
  {
    var p := ConfirmationPrompt(searchResults);
    assert p[|ConfirmationHead|..|p| - |ConfirmationTail|] == searchResults;
    var q := ConfirmationUserPrompt(userPrompt);
    assert q[|UserHead|..|q| - |UserTail|] == userPrompt;
  }

  /** The first completion: the search prompt, the user's prompt and the one tool. */
  function FirstRequest(prompt: string): CompletionRequest
  {
    CompletionRequest("gpt-4.1", [ChatMessage("system", SearchPrompt), ChatMessage("user", prompt)],
                      [SearchTool], true, None)
  }

  /** The confirmation completion over the stringified review items and the original prompt. */
  function ConfirmationRequest(reviewJson: string, prompt: string): CompletionRequest
  {
    CompletionRequest("gpt-4o-mini",
                      [ChatMessage("system", ConfirmationPrompt(reviewJson)),
                       ChatMessage("user", ConfirmationUserPrompt(prompt))],
                      [], true, Some("medications"))
  }

  /**
   * searchResult.map(r => ({id: r.id, field: r.payload[args.field]})): one
   * object per result in order, holding the id and, when the payload has
   * the requested field, its value (JSON.stringify drops an undefined one).
   */
  function ReviewItems(results: seq<Retrieval.SearchResult>, field: string): (items: seq<Json>)
    ensures |items| == |results|
    ensures forall k :: 0 <= k < |items| ==>
      && items[k].Obj?
      && Get(items[k].fields, "id") == Some(Str(results[k].id))
      && Get(items[k].fields, "field") == Get(results[k].payload, field)
      && forall key :: key in Keys(items[k].fields) ==> key == "id" || key == "field"
  {
    seq(|results|, k requires 0 <= k < |results| =>
      var v := Get(results[k].payload, field);
      Obj([("id", Str(results[k].id))] + (if v.Some? then [("field", v.value)] else [])))
  }

  /**
   * What one tool call adds: nothing for another tool; for the search tool the
   * confirmation message, or the error that aborts the chat.
   */
  function Step(call: ToolCall, prompt: string, env: Services): Result<Option<AssistantMessage>, ChatError>
  {
    if call.name != SearchToolName then Ok(None)
    else match env.parseArgs(call.arguments)
      case None => Err(BadToolArguments(call.arguments))
      case Some(args) =>
        match Retrieval.SearchMedicalData(args.userPrompt, env.collection)
        case Err(e) => Err(RetrievalFailed(e))
        case Ok(results) =>
          match env.complete(ConfirmationRequest(Stringify(Arr(ReviewItems(results, args.field))), prompt))
          case Err(e) => Err(CompletionFailed(e))
          case Ok(m) => Ok(Some(m))
  }

  /** The messages the tool calls add, in order, or the first error. */
  function Reviews(calls: seq<ToolCall>, prompt: string, env: Services): Result<seq<AssistantMessage>, ChatError>
    decreases |calls|
  {
    if calls == [] then Ok([])
    else match Reviews(calls[..|calls| - 1], prompt, env)
      case Err(e) => Err(e)
      case Ok(ms) =>
        match Step(calls[|calls| - 1], prompt, env)
        case Err(e) => Err(e)
        case Ok(None) => Ok(ms)
        case Ok(Some(m)) => Ok(ms + [m])
  }

  predicate HasToolCalls(m: AssistantMessage)
  {
    m.toolCalls.Some? && |m.toolCalls.value| > 0
  }

  /** The outcome chat(prompt) promises, as a function of its collaborators' answers. */
  function ChatOutcome(prompt: string, env: Services): Result<seq<AssistantMessage>, ChatError>
  {
    match env.complete(FirstRequest(prompt))
    case Err(e) => Err(CompletionFailed(e))
    case Ok(m) =>
      if !HasToolCalls(m) then Ok([m])
      else match Reviews(m.toolCalls.value, prompt, env)
        case Err(e) => Err(e)
        case Ok(ms) => Ok([m] + ms)
  }

  lemma {:induction false} ErrorSticks(calls: seq<ToolCall>, i: nat, prompt: string, env: Services)
    requires i <= |calls| && Reviews(calls[..i], prompt, env).Err?
    ensures Reviews(calls, prompt, env) == Reviews(calls[..i], prompt, env)
    decreases |calls| - i
  {
    if i < |calls| {
      assert calls[..i + 1][..i] == calls[..i];
      ErrorSticks(calls, i + 1, prompt, env);
    } else {
      assert calls[..i] == calls;
    }
  }

  /** chat(prompt): the tool-call loop of the source. */
  method ChatWith(prompt: string, env: Services) returns (r: Result<seq<AssistantMessage>, ChatError>)
    ensures r == ChatOutcome(prompt, env)
  {
    var response := env.complete(FirstRequest(prompt));
    if response.Err? {
      return Err(CompletionFailed(response.error));
    }
    var result := [response.value];
    if HasToolCalls(response.value) {
      var calls := response.value.toolCalls.value;
      var i := 0;
      while i < |calls|
        invariant 0 <= i <= |calls|
        invariant Reviews(calls[..i], prompt, env).Ok?
        invariant result == [response.value] + Reviews(calls[..i], prompt, env).value
      {
        var step := ToolStep(calls[i], prompt, env);
        ReviewsPrefix(calls, i, prompt, env);
        if step.Err? {
          ErrorSticks(calls, i + 1, prompt, env);
          return Err(step.error);
        }
        if step.value.Some? {
          result := result + [step.value.value];
        }
        i := i + 1;
      }
      assert calls[..|calls|] == calls;
    }
    r := Ok(result);
  }

  /** The body of the loop for one tool call: the switch on its name and the search case. */
  method ToolStep(tool: ToolCall, prompt: string, env: Services) returns (s: Result<Option<AssistantMessage>, ChatError>)
    ensures s == Step(tool, prompt, env)
  {
    if tool.name != SearchToolName {
      return Ok(None);
    }
    var args := env.parseArgs(tool.arguments);
    if args.None? {
      return Err(BadToolArguments(tool.arguments));
    }
    var searchResult := Retrieval.SearchMedicalData(args.value.userPrompt, env.collection);
    if searchResult.Err? {
      return Err(RetrievalFailed(searchResult.error));
    }
    var medications := ReviewItems(searchResult.value, args.value.field);
    var confirmation := env.complete(ConfirmationRequest(Stringify(Arr(medications)), prompt));
    if confirmation.Err? {
      return Err(CompletionFailed(confirmation.error));
    }
    s := Ok(Some(confirmation.value));
  }

  /** One more tool call after a prefix that went through. */
  lemma ReviewsPrefix(calls: seq<ToolCall>, i: nat, prompt: string, env: Services)
    requires i < |calls| && Reviews(calls[..i], prompt, env).Ok?
    ensures var ms := Reviews(calls[..i], prompt, env).value;
      Reviews(calls[..i + 1], prompt, env) ==
        match Step(calls[i], prompt, env)
        case Err(e) => Err(e)
        case Ok(None) => Ok(ms)
        case Ok(Some(m)) => Ok(ms + [m])
  {
    assert calls[..i + 1][..i] == calls[..i];
  }

  function CountSearchCalls(calls: seq<ToolCall>): nat
    decreases |calls|
  {
    if calls == [] then 0
    else CountSearchCalls(calls[..|calls| - 1]) + (if calls[|calls| - 1].name == SearchToolName then 1 else 0)
  }

  /**
   * When the tool calls succeed, there is exactly one review message per
   * search_medication_data call, every such call's arguments parsed, and
   * calls to any other tool added nothing.
   */
  lemma {:induction false} ReviewsPerSearchCall(calls: seq<ToolCall>, prompt: string, env: Services)
    requires Reviews(calls, prompt, env).Ok?
    ensures |Reviews(calls, prompt, env).value| == CountSearchCalls(calls)
    ensures forall k :: 0 <= k < |calls| && calls[k].name == SearchToolName ==>
      env.parseArgs(calls[k].arguments).Some?
    decreases |calls|
  {
    if calls != [] {
      var init := calls[..|calls| - 1];
      ReviewsPerSearchCall(init, prompt, env);
      forall k | 0 <= k < |calls| && calls[k].name == SearchToolName
        ensures env.parseArgs(calls[k].arguments).Some?
      {
        if k < |calls| - 1 {
          assert calls[k] == init[k];
        }
      }
    }
  }

  /** The answer always starts with the first completion's message; without tool calls it is only that. */
  lemma ChatShape(prompt: string, env: Services)
    requires ChatOutcome(prompt, env).Ok?
    ensures var m := env.complete(FirstRequest(prompt)).value;
      var out := ChatOutcome(prompt, env).value;
      |out| >= 1 && out[0] == m
      && (!HasToolCalls(m) ==> out == [m])
      && (HasToolCalls(m) ==> |out| == 1 + CountSearchCalls(m.toolCalls.value))
  {
    var m := env.complete(FirstRequest(prompt)).value;
    if HasToolCalls(m) {
      ReviewsPerSearchCall(m.toolCalls.value, prompt, env);
    }
  }

  /** Arguments that JSON.parse rejects abort the chat when every earlier call went through. */
  lemma BadArgumentsAbort(calls: seq<ToolCall>, i: nat, prompt: string, env: Services)
    requires i < |calls| && calls[i].name == SearchToolName && env.parseArgs(calls[i].arguments).None?
    requires Reviews(calls[..i], prompt, env).Ok?
    ensures Reviews(calls, prompt, env) == Err(BadToolArguments(calls[i].arguments))
  {
    assert calls[..i + 1][..i] == calls[..i];
    ErrorSticks(calls, i + 1, prompt, env);
  }
}
